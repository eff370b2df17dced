/**
  Expanding one package marker: the prefix a package's type selects, and the tag lines
  `processLine` builds from a registered package in each mode.
 */
module Expander {
  import opened Wrappers
  import opened Strings
  import opened Files
  import opened Errors
  import opened Manifest
  import opened Registry

  datatype Mode = Development | Production

  /**
    `options.output_prefix` after the defaults are merged: `None` for a falsy value,
    otherwise an object whose `js` and `css` entries may be missing.
   */
  datatype PrefixConfig = PrefixConfig(js: Option<string>, css: Option<string>)

  /** The prefix entry `outputPrefix` reads: `js` for a name ending in "js", else `css` for one ending in "css", else the key `undefined`. */
  function PrefixEntry(config: PrefixConfig, name: string): Option<string> {
    if EndsWith(name, "js") then config.js
    else if EndsWith(name, "css") then config.css
    else None
  }

  /** `outputPrefix(prefices, name)`: the selected entry and the path separator, or nothing without a prefix object. */
  function OutputPrefix(prefices: Option<PrefixConfig>, name: string): string {
    match prefices
    case None => ""
    case Some(config) => AsText(PrefixEntry(config, name)) + PathSep
  }

  /**
    The prefix a name receives, stated by its suffix: "js" wins over "css", a missing
    entry reads as "undefined", and no prefix object means no prefix.
   */
  lemma OutputPrefixBySuffix(prefices: Option<PrefixConfig>, name: string)
    ensures prefices.None? ==> OutputPrefix(prefices, name) == ""
    ensures prefices.Some? && EndsWith(name, "js") ==> OutputPrefix(prefices, name) == AsText(prefices.value.js) + "/"
    ensures prefices.Some? && !EndsWith(name, "js") && EndsWith(name, "css") ==>
      OutputPrefix(prefices, name) == AsText(prefices.value.css) + "/"
    ensures prefices.Some? && !EndsWith(name, "js") && !EndsWith(name, "css") ==>
      OutputPrefix(prefices, name) == "undefined/"
  {
  }

  /** The script marker uses the `js` prefix and the style marker the `css` prefix. */
  lemma MarkerPrefixes(prefices: Option<PrefixConfig>)
    ensures prefices.Some? ==> OutputPrefix(prefices, "js") == AsText(prefices.value.js) + "/"
    ensures prefices.Some? ==> OutputPrefix(prefices, "css") == AsText(prefices.value.css) + "/"
  {
    assert EndsWith("js", "js");
    assert !EndsWith("css", "js") && EndsWith("css", "css");
  }

  /** The text around a file name in an expanded line. */
  datatype TagTemplate = TagTemplate(open: string, close: string)

  const ScriptTag: TagTemplate := TagTemplate("<script src=\"", "\"></script>")
  const StyleTag: TagTemplate := TagTemplate("<link rel=\"stylesheet\" href=\"", "\">")

  /** `expandLine`: white space, opening text, prefix, file name, closing text. */
  function ExpandLine(ws: string, tag: TagTemplate, prefix: string, fileName: string): string {
    ws + tag.open + prefix + fileName + tag.close
  }

  /** One expanded line per packaged file, in package order. */
  function FileLines(files: seq<PackagedFile>, ws: string, tag: TagTemplate, prefix: string): (lines: seq<string>)
    ensures |lines| == |files|
    ensures forall k :: 0 <= k < |files| ==> lines[k] == ExpandLine(ws, tag, prefix, AsText(files[k].filename))
  {
    seq(|files|, k requires 0 <= k < |files| => ExpandLine(ws, tag, prefix, AsText(files[k].filename)))
  }

  /**
    `processLine`: the text that replaces a package marker. An unregistered name is the
    fatal warning 'Reference to nonexistant package'.
   */
  function ProcessLine(reg: Registry, name: string, ws: string, tag: TagTemplate, mode: Mode, prefix: string, lf: string): (r: Result<string, Error>)
    ensures r.Failure? <==> name !in reg.packages
    ensures r.Failure? ==> r.error == UndefinedPackage(name)
  {
    if name !in reg.packages then Failure(UndefinedPackage(name))
    else match mode
      case Development => Success(Join(FileLines(reg.packages[name], ws, tag, prefix), lf))
      case Production => Success(ExpandLine(ws, tag, prefix, name))
  }

  /**
    In development a package of K files becomes exactly K lines, line k naming file k
    with the marker's white space in front, when no part of a line holds the line feed.
   */
  lemma DevelopmentExpansion(reg: Registry, name: string, ws: string, tag: TagTemplate, prefix: string, lf: string)
    requires name in reg.packages && |reg.packages[name]| >= 1
    requires |lf| > 0 && Unbordered(lf)
    requires forall k :: 0 <= k < |reg.packages[name]| ==>
      !Contains(ExpandLine(ws, tag, prefix, AsText(reg.packages[name][k].filename)), lf)
    ensures var lines := Split(ProcessLine(reg, name, ws, tag, Development, prefix, lf).value, lf);
      && |lines| == |reg.packages[name]|
      && forall k :: 0 <= k < |lines| ==>
           lines[k] == ws + tag.open + prefix + AsText(reg.packages[name][k].filename) + tag.close
  {
    SplitJoin(FileLines(reg.packages[name], ws, tag, prefix), lf);
  }

  /** A registered package with no files expands to one empty line in development. */
  lemma EmptyPackageExpansion(reg: Registry, name: string, ws: string, tag: TagTemplate, prefix: string, lf: string)
    requires name in reg.packages && reg.packages[name] == []
    ensures ProcessLine(reg, name, ws, tag, Development, prefix, lf) == Success("")
  {
  }

  /** In production a package becomes one line naming the package itself, whatever files it lists. */
  lemma ProductionExpansion(reg: Registry, name: string, ws: string, tag: TagTemplate, prefix: string, lf: string)
    requires name in reg.packages && |lf| > 0
    requires !Contains(ws + tag.open + prefix + name + tag.close, lf)
    ensures Split(ProcessLine(reg, name, ws, tag, Production, prefix, lf).value, lf) == [ws + tag.open + prefix + name + tag.close]
  {
    SplitSingleton(ws + tag.open + prefix + name + tag.close, lf);
  }
}
