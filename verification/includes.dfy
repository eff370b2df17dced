/**
  `writeIncludes`: without an index template, one HTML include per package holding the
  package's script tags.
 */
module Includes {
  import opened Wrappers
  import opened Strings
  import opened Files
  import opened Errors
  import opened Manifest
  import opened Registry
  import opened Expander

  /** The characters `.` in a regular expression does not match. */
  predicate IsLineTerminator(c: char) {
    c == '\n' || c == '\r' || c == '\U{2028}' || c == '\U{2029}'
  }

  /** The first line terminator at or after `i`, or the end of `s`. */
  function TerminatorFrom(s: string, i: nat): (j: nat)
    requires i <= |s|
    ensures i <= j <= |s| && (j == |s| || IsLineTerminator(s[j]))
    ensures forall t :: i <= t < j ==> !IsLineTerminator(s[t])
    decreases |s| - i
  {
    if i == |s| || IsLineTerminator(s[i]) then i else TerminatorFrom(s, i + 1)
  }

  /**
    `key.replace` of the pattern `\..*` by '.html': the first dot and everything after
    it up to the next line terminator become ".html".
   */
  function IncludeName(key: string): string {
    match IndexOf(key, ".")
    case None => key
    case Some(i) => key[..i] + ".html" + key[TerminatorFrom(key, i + 1)..]
  }

  /**
    The include name, stated by the dot: a key without a dot is kept; otherwise the key is
    its part before the first dot, a dot-led run free of line terminators that ends at a
    terminator or the end, and the remainder; the run is replaced by ".html".
   */
  lemma IncludeNameByDot(key: string)
    ensures !Contains(key, ".") ==> IncludeName(key) == key
    ensures Contains(key, ".") ==> exists i: nat, j: nat ::
      && i < j <= |key| && key[i] == '.'
      && (forall t :: 0 <= t < i ==> key[t] != '.')
      && (forall t :: i < t < j ==> !IsLineTerminator(key[t]))
      && (j == |key| || IsLineTerminator(key[j]))
      && IncludeName(key) == key[..i] + ".html" + key[j..]
  {
    assert "." == ['.'];
    IndexOfChar(key, '.');
    match IndexOf(key, ".")
    case None =>
    case Some(i) =>
      var j := TerminatorFrom(key, i + 1);
      assert IncludeName(key) == key[..i] + ".html" + key[j..];
  }

  /**
    Only the first dot counts: a stem without a dot, then a dot and an extension on one
    line (which may hold further dots), gives the stem with ".html"; `jquery.min.js`
    becomes `jquery.html`.
   */
  lemma IncludeNameOfStem(stem: string, ext: string)
    requires forall t :: 0 <= t < |stem| ==> stem[t] != '.'
    requires forall t :: 0 <= t < |ext| ==> !IsLineTerminator(ext[t])
    ensures IncludeName(stem + "." + ext) == stem + ".html"
  {
    var key := stem + "." + ext;
    assert "." == ['.'];
    IndexOfChar(key, '.');
    assert key[|stem|] == '.';
    assert forall t :: 0 <= t < |stem| ==> key[t] == stem[t];
    assert IndexOf(key, ".") == Some(|stem|);
    assert forall t :: |stem| < t < |key| ==> key[t] == ext[t - |stem| - 1];
    assert TerminatorFrom(key, |stem| + 1) == |key|;
    assert key[..|stem|] == stem;
  }

  /** A key without a dot is its own include name. */
  lemma IncludeNameWithoutDot(key: string)
    requires forall t :: 0 <= t < |key| ==> key[t] != '.'
    ensures IncludeName(key) == key
  {
    IndexOfChar(key, '.');
    assert "." == ['.'];
  }

  /** The script line of an include file. */
  function IncludeLine(jsPrefix: Option<string>, fileName: string): string {
    "<script src=\"" + AsText(jsPrefix) + PathSep + fileName + "\"></script>"
  }

  /**
    The content of a package's include: in development one script line per file, joined
    with the line feed; in production one script line naming the package.
   */
  function IncludeContent(files: seq<PackagedFile>, key: string, mode: Mode, jsPrefix: Option<string>, lf: string): string {
    match mode
    case Development => Join(seq(|files|, k requires 0 <= k < |files| => IncludeLine(jsPrefix, AsText(files[k].filename))), lf)
    case Production => IncludeLine(jsPrefix, key)
  }

  /** An include line is the script tag a marker with no white space expands to. */
  lemma IncludeLineIsScriptTag(jsPrefix: Option<string>, fileName: string)
    ensures IncludeLine(jsPrefix, fileName) == ExpandLine("", ScriptTag, AsText(jsPrefix) + PathSep, fileName)
  {
    var pfx := AsText(jsPrefix);
    var expanded := ExpandLine("", ScriptTag, pfx + PathSep, fileName);
    assert expanded == "" + (ScriptTag.open + (pfx + PathSep) + fileName + ScriptTag.close);
    assert "" + (ScriptTag.open + (pfx + PathSep) + fileName + ScriptTag.close)
      == ScriptTag.open + (pfx + PathSep) + fileName + ScriptTag.close;
  }

  /**
    An include holds what a script marker with no leading white space would expand to,
    with the `js` prefix entry read directly (the index path reads it through
    `outputPrefix`).
   */
  lemma IncludeIsScriptExpansion(reg: Registry, key: string, mode: Mode, jsPrefix: Option<string>, lf: string)
    requires key in reg.packages
    ensures ProcessLine(reg, key, "", ScriptTag, mode, AsText(jsPrefix) + PathSep, lf)
      == Success(IncludeContent(reg.packages[key], key, mode, jsPrefix, lf))
  {
    var files := reg.packages[key];
    var prefix := AsText(jsPrefix) + PathSep;
    if mode == Development {
      var lines := FileLines(files, "", ScriptTag, prefix);
      var includeLines := seq(|files|, k requires 0 <= k < |files| => IncludeLine(jsPrefix, AsText(files[k].filename)));
      forall k | 0 <= k < |files|
        ensures lines[k] == includeLines[k]
      {
        IncludeLineIsScriptTag(jsPrefix, AsText(files[k].filename));
      }
      assert lines == includeLines;
    } else {
      IncludeLineIsScriptTag(jsPrefix, key);
    }
  }

  /** The write of one package's include. */
  function IncludeWrite(reg: Registry, key: string, mode: Mode, jsPrefix: Option<string>, includesDir: string, lf: string): FileWrite {
    FileWrite(includesDir + PathSep + IncludeName(key), IncludeContent(FilesOf(reg.packages, key), key, mode, jsPrefix, lf))
  }

  /**
    Whether building a package's include reads `options.output_prefix.js`: production
    always does, development once per file, so never for a package without files.
   */
  predicate ReadsJsPrefix(files: seq<PackagedFile>, mode: Mode) {
    mode == Production || |files| > 0
  }

  /** The `js` entry of the prefix object, missing when there is no object. */
  function JsPrefix(prefices: Option<PrefixConfig>): Option<string> {
    if prefices.Some? then prefices.value.js else None
  }

  /**
    The `_.each` loop over `names`: each package's include is written in turn, until a
    package whose content reads the prefix finds no prefix object and raises the
    TypeError.
   */
  function IncludeWritesFrom(reg: Registry, names: seq<string>, mode: Mode, prefices: Option<PrefixConfig>, includesDir: string, lf: string): Result<seq<FileWrite>, Error>
    decreases |names|
  {
    if |names| == 0 then Success([])
    else if prefices.None? && ReadsJsPrefix(FilesOf(reg.packages, names[0]), mode) then Failure(MissingOutputPrefix)
    else
      var rest :- IncludeWritesFrom(reg, names[1..], mode, prefices, includesDir, lf);
      Success([IncludeWrite(reg, names[0], mode, JsPrefix(prefices), includesDir, lf)] + rest)
  }

  lemma {:induction false} IncludeWritesFromFacts(reg: Registry, names: seq<string>, mode: Mode, prefices: Option<PrefixConfig>, includesDir: string, lf: string)
    ensures var r := IncludeWritesFrom(reg, names, mode, prefices, includesDir, lf);
      && (r.Failure? <==> prefices.None? && exists k :: 0 <= k < |names| && ReadsJsPrefix(FilesOf(reg.packages, names[k]), mode))
      && (r.Failure? ==> r.error == MissingOutputPrefix)
      && (r.Success? ==> |r.value| == |names|)
      && (r.Success? ==> forall k :: 0 <= k < |names| ==>
            r.value[k] == IncludeWrite(reg, names[k], mode, JsPrefix(prefices), includesDir, lf))
    decreases |names|
  {
    if |names| > 0 {
      var tail := names[1..];
      IncludeWritesFromFacts(reg, tail, mode, prefices, includesDir, lf);
      if prefices.None? && ReadsJsPrefix(FilesOf(reg.packages, names[0]), mode) {
      } else {
        var r := IncludeWritesFrom(reg, tail, mode, prefices, includesDir, lf);
        if r.Failure? {
          var k :| 0 <= k < |tail| && ReadsJsPrefix(FilesOf(reg.packages, tail[k]), mode);
          assert tail[k] == names[k + 1];
        } else {
          forall k | 0 <= k < |names|
            ensures !ReadsJsPrefix(FilesOf(reg.packages, names[k]), mode) || prefices.Some?
          {
            if k > 0 {
              assert names[k] == tail[k - 1];
            }
          }
        }
      }
    }
  }

  /**
    `writeIncludes`: one write per package, in registry order. Reading
    `options.output_prefix.js` while there is no prefix object raises a TypeError, but
    only a package whose content reads it does so: in development a package without
    files reads nothing and gets an empty include.
   */
  function WriteIncludes(reg: Registry, mode: Mode, prefices: Option<PrefixConfig>, includesDir: string, lf: string): (r: Result<seq<FileWrite>, Error>)
    ensures r.Failure? <==> prefices.None? && exists k :: 0 <= k < |reg.names| && ReadsJsPrefix(FilesOf(reg.packages, reg.names[k]), mode)
    ensures r.Failure? ==> r.error == MissingOutputPrefix
    ensures r.Success? ==> |r.value| == |reg.names|
    ensures r.Success? ==> forall k :: 0 <= k < |reg.names| ==>
      r.value[k] == IncludeWrite(reg, reg.names[k], mode, JsPrefix(prefices), includesDir, lf)
  {
    IncludeWritesFromFacts(reg, reg.names, mode, prefices, includesDir, lf);
    IncludeWritesFrom(reg, reg.names, mode, prefices, includesDir, lf)
  }

  /** Without a prefix object, packages without files still get an empty include in development. */
  lemma EmptyIncludesWithoutPrefix(reg: Registry, includesDir: string, lf: string)
    requires forall k :: 0 <= k < |reg.names| ==> FilesOf(reg.packages, reg.names[k]) == []
    ensures var r := WriteIncludes(reg, Development, None, includesDir, lf);
      && r.Success? && |r.value| == |reg.names|
      && forall k :: 0 <= k < |reg.names| ==> r.value[k] == FileWrite(includesDir + PathSep + IncludeName(reg.names[k]), "")
  {
    var r := WriteIncludes(reg, Development, None, includesDir, lf);
    forall k | 0 <= k < |reg.names|
      ensures r.value[k] == FileWrite(includesDir + PathSep + IncludeName(reg.names[k]), "")
    {
      assert r.value[k] == IncludeWrite(reg, reg.names[k], Development, None, includesDir, lf);
    }
  }

  /**
    Every registered package gets its include file with its content, unless a package
    later in the registry order maps to the same include name and overwrites it.
   */
  lemma IncludeWritten(fs: FileSystem, reg: Registry, mode: Mode, prefices: Option<PrefixConfig>, includesDir: string, lf: string, name: string)
    requires Valid(reg) && name in reg.packages
    requires WriteIncludes(reg, mode, prefices, includesDir, lf).Success?
    requires forall k, k' :: 0 <= k < k' < |reg.names| && reg.names[k] == name ==> IncludeName(reg.names[k']) != IncludeName(name)
    ensures var writes := WriteIncludes(reg, mode, prefices, includesDir, lf).value;
      && includesDir + "/" + IncludeName(name) in ApplyWrites(fs, writes)
      && ApplyWrites(fs, writes)[includesDir + "/" + IncludeName(name)]
        == File(IncludeContent(reg.packages[name], name, mode, JsPrefix(prefices), lf))
  {
    var writes := WriteIncludes(reg, mode, prefices, includesDir, lf).value;
    var i :| 0 <= i < |reg.names| && reg.names[i] == name;
    assert writes[i] == IncludeWrite(reg, name, mode, JsPrefix(prefices), includesDir, lf);
    forall k | i < k < |writes|
      ensures writes[k].path != writes[i].path
    {
      assert writes[k] == IncludeWrite(reg, reg.names[k], mode, JsPrefix(prefices), includesDir, lf);
      assert IncludeName(reg.names[k]) != IncludeName(name);
      assert writes[k].path[|includesDir| + 1..] == IncludeName(reg.names[k]);
      assert writes[i].path[|includesDir| + 1..] == IncludeName(name);
    }
    LastWriteLands(fs, writes, i);
  }
}
