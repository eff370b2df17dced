/**
  Rendering the index template: every line is tested for a script marker, then a style
  marker, then a partial marker, and replaced by what the first of them produces. The
  replacement text is never scanned again.
 */
module Render {
  import opened Wrappers
  import opened Strings
  import opened Files
  import opened Errors
  import opened Registry
  import opened Markers
  import opened Expander

  /**
    What rendering a line needs besides the line: the registry, the mode, the prefix
    object, the files a partial may name, the substitution `grunt.template.process`
    performs with `options.process`, and the line feed.
   */
  datatype Context = Context(
    registry: Registry,
    mode: Mode,
    prefices: Option<PrefixConfig>,
    fs: FileSystem,
    substitute: string -> string,
    lf: string)

  /** What `writePartial` produces: the text, and the warning it raised. */
  datatype Splice = Splice(text: string, warning: Option<Error>)

  /**
    `writePartial`: the partial's text, passed through the template substitution when the
    line carries the process flag; a path that is not a regular file gives the empty
    text and the warning 'No partial'.
   */
  function WritePartial(path: string, process: bool, fs: FileSystem, substitute: string -> string): (s: Splice)
    ensures s.warning.None? <==> IsRegularFile(fs, path)
    ensures s.warning.Some? ==> s == Splice("", Some(PartialNotFound(path)))
    ensures s.warning.None? && !process ==> fs[path] == File(s.text)
    ensures s.warning.None? && process ==> fs[path].File? && s.text == substitute(fs[path].content)
  {
    match Read(fs, path)
    case None => Splice("", Some(PartialNotFound(path)))
    case Some(text) => Splice(if process then substitute(text) else text, None)
  }

  /**
    The body of the `indexLines.forEach` callback for one line. A warning from the partial
    is fatal: Grunt's `grunt.warn` stops the run.
   */
  function RenderLine(line: string, ctx: Context): Result<string, Error> {
    match Match(line, ScriptPackage)
    case Some(m) =>
      ProcessLine(ctx.registry, m.name, m.whitespace, ScriptTag, ctx.mode, OutputPrefix(ctx.prefices, "js"), ctx.lf)
    case None =>
      match Match(line, StylePackage)
      case Some(m) =>
        ProcessLine(ctx.registry, m.name, m.whitespace, StyleTag, ctx.mode, OutputPrefix(ctx.prefices, "css"), ctx.lf)
      case None =>
        match Match(line, ScriptPartial)
        case Some(m) =>
          var s := WritePartial(m.name, HasProcessFlag(line), ctx.fs, ctx.substitute);
          if s.warning.Some? then Failure(s.warning.value) else Success(s.text)
        case None => Success(line)
  }

  /** Line `i` is the first line `f` fails on, and it fails with `e`. */
  predicate FirstFailure(lines: seq<string>, f: string -> Result<string, Error>, i: nat, e: Error)
    requires i < |lines|
  {
    && f(lines[i]) == Failure(e)
    && forall k :: 0 <= k < i ==> f(lines[k]).Success?
  }

  /**
    `f` applied to every line in order; the first line that fails stops the run. Each
    output line is `f` of the input line at the same index alone.
   */
  function MapLines(lines: seq<string>, f: string -> Result<string, Error>): (r: Result<seq<string>, Error>)
    ensures r.Success? <==> forall i :: 0 <= i < |lines| ==> f(lines[i]).Success?
    ensures r.Success? ==> |r.value| == |lines|
    ensures r.Success? ==> forall i :: 0 <= i < |lines| ==> f(lines[i]) == Success(r.value[i])
    ensures r.Failure? ==> exists i :: 0 <= i < |lines| && FirstFailure(lines, f, i, r.error)
    decreases |lines|
  {
    if |lines| == 0 then Success([])
    else match f(lines[0])
      case Failure(e) =>
        assert FirstFailure(lines, f, 0, e);
        Failure(e)
      case Success(out) =>
        match MapLines(lines[1..], f)
        case Failure(e) =>
          var i :| 0 <= i < |lines| - 1 && FirstFailure(lines[1..], f, i, e);
          assert FirstFailure(lines, f, i + 1, e);
          Failure(e)
        case Success(rest) => Success([out] + rest)
  }

  /** `RenderLine` with its context fixed. */
  function Renderer(ctx: Context): string -> Result<string, Error> {
    line => RenderLine(line, ctx)
  }

  /** Split a text at the line feed, map every line, join the results again. */
  function MapText(text: string, f: string -> Result<string, Error>, lf: string): Result<string, Error>
    requires |lf| > 0
  {
    var out :- MapLines(Split(text, lf), f);
    Success(Join(out, lf))
  }

  /** `writeIndexFile` without the write: split at the line feed, render, join again. */
  function RenderIndex(text: string, ctx: Context): Result<string, Error>
    requires |ctx.lf| > 0
  {
    MapText(text, Renderer(ctx), ctx.lf)
  }

  /**
    Mapping a text line by line: it fails exactly when some line fails, and then with the
    error of the first such line; otherwise it is the joined results, line i mapped alone.
   */
  lemma MapTextByLines(text: string, f: string -> Result<string, Error>, lf: string)
    requires |lf| > 0
    ensures var lines := Split(text, lf);
      && (MapText(text, f, lf).Success? <==> forall i :: 0 <= i < |lines| ==> f(lines[i]).Success?)
      && (MapText(text, f, lf).Success? ==>
            exists out: seq<string> :: |out| == |lines| && MapText(text, f, lf).value == Join(out, lf)
              && forall i :: 0 <= i < |lines| ==> f(lines[i]) == Success(out[i]))
      && (MapText(text, f, lf).Failure? ==>
            exists i :: 0 <= i < |lines| && FirstFailure(lines, f, i, MapText(text, f, lf).error))
  {
    var lines := Split(text, lf);
    MapTextUnfold(text, f, lf);
    var r := MapLines(lines, f);
    if r.Success? {
      forall i | 0 <= i < |lines|
        ensures f(lines[i]) == Success(r.value[i])
      {
      }
      assert MapText(text, f, lf).value == Join(r.value, lf);
    } else {
      var i :| 0 <= i < |lines| && FirstFailure(lines, f, i, r.error);
      assert MapText(text, f, lf).error == r.error;
    }
  }

  lemma MapTextUnfold(text: string, f: string -> Result<string, Error>, lf: string)
    requires |lf| > 0
    ensures var r := MapLines(Split(text, lf), f);
      MapText(text, f, lf) == if r.Success? then Success(Join(r.value, lf)) else Failure(r.error)
  {
  }

  /** A line on which none of the three patterns matches anywhere is kept as it is. */
  lemma UnmarkedLineUnchanged(line: string, ctx: Context)
    requires forall p: nat, e: nat, j: nat :: !PatternMatch(line, ScriptPackage, p, e, j)
    requires forall p: nat, e: nat, j: nat :: !PatternMatch(line, StylePackage, p, e, j)
    requires forall p: nat, e: nat, j: nat :: !PatternMatch(line, ScriptPartial, p, e, j)
    ensures RenderLine(line, ctx) == Success(line)
  {
    MatchIsFirstMatch(line, ScriptPackage);
    MatchIsFirstMatch(line, StylePackage);
    MatchIsFirstMatch(line, ScriptPartial);
  }

  /**
    A line whose script pattern first matches from `p` to `j`, with the opening text at
    `e`, is replaced as a whole by the package's script lines with the `js` prefix: only
    the captured white space `line[p..e]` and name survive, and the text before the
    marker and after it, other markers included, is dropped.
   */
  lemma ScriptMarkerLine(line: string, p: nat, e: nat, j: nat, ctx: Context)
    requires FirstMatch(line, ScriptPackage, p, e, j)
    ensures var d := e + |Opening(ScriptPackage)|;
      RenderLine(line, ctx)
        == ProcessLine(ctx.registry, line[d + 1..j], line[p..e], ScriptTag, ctx.mode, OutputPrefix(ctx.prefices, "js"), ctx.lf)
  {
    MatchOfFirstMatch(line, ScriptPackage, p, e, j);
  }

  /**
    A line with no script marker whose style pattern first matches from `p` to `j` is
    replaced as a whole by the package's stylesheet lines with the `css` prefix.
   */
  lemma StyleMarkerLine(line: string, p: nat, e: nat, j: nat, ctx: Context)
    requires forall p': nat, e': nat, j': nat :: !PatternMatch(line, ScriptPackage, p', e', j')
    requires FirstMatch(line, StylePackage, p, e, j)
    ensures var d := e + |Opening(StylePackage)|;
      RenderLine(line, ctx)
        == ProcessLine(ctx.registry, line[d + 1..j], line[p..e], StyleTag, ctx.mode, OutputPrefix(ctx.prefices, "css"), ctx.lf)
  {
    MatchNone(line, ScriptPackage);
    MatchOfFirstMatch(line, StylePackage, p, e, j);
  }

  /**
    A line with no package marker whose partial pattern first matches from `p` to `j` is
    replaced as a whole by the named file's text as it stands, or as substituted when the
    line carries the process flag anywhere; the captured white space is not kept and the
    text is not searched for markers. A missing file stops the run.
   */
  lemma PartialMarkerLine(line: string, p: nat, e: nat, j: nat, ctx: Context)
    requires forall p': nat, e': nat, j': nat :: !PatternMatch(line, ScriptPackage, p', e', j')
    requires forall p': nat, e': nat, j': nat :: !PatternMatch(line, StylePackage, p', e', j')
    requires FirstMatch(line, ScriptPartial, p, e, j)
    ensures var path := line[e + |Opening(ScriptPartial)| + 1..j];
      RenderLine(line, ctx) ==
        if !IsRegularFile(ctx.fs, path) then Failure(PartialNotFound(path))
        else if HasProcessFlag(line) then Success(ctx.substitute(ctx.fs[path].content))
        else Success(ctx.fs[path].content)
  {
    PartialMatched(line, p, e, j);
    PartialLine(line, Capture(line, ScriptPartial, p, e, j), ctx);
  }

  /** What the three patterns report on such a line. */
  lemma PartialMatched(line: string, p: nat, e: nat, j: nat)
    requires forall p': nat, e': nat, j': nat :: !PatternMatch(line, ScriptPackage, p', e', j')
    requires forall p': nat, e': nat, j': nat :: !PatternMatch(line, StylePackage, p', e', j')
    requires FirstMatch(line, ScriptPartial, p, e, j)
    ensures Match(line, ScriptPackage).None? && Match(line, StylePackage).None?
    ensures Match(line, ScriptPartial) == Some(Capture(line, ScriptPartial, p, e, j))
  {
    MatchNone(line, ScriptPackage);
    MatchNone(line, StylePackage);
    MatchOfFirstMatch(line, ScriptPartial, p, e, j);
  }

  /** The partial branch of a line, given the partial marker it matched. */
  lemma PartialLine(line: string, m: Marker, ctx: Context)
    requires Match(line, ScriptPackage).None? && Match(line, StylePackage).None?
    requires Match(line, ScriptPartial) == Some(m)
    ensures RenderLine(line, ctx) ==
      if !IsRegularFile(ctx.fs, m.name) then Failure(PartialNotFound(m.name))
      else if HasProcessFlag(line) then Success(ctx.substitute(ctx.fs[m.name].content))
      else Success(ctx.fs[m.name].content)
  {
  }

  /**
    The rendered document has one rendered line per template line, each the rendering of
    that line alone, joined with the line feed; it fails exactly when some line fails, and
    then with the error of the first such line.
   */
  lemma RenderIndexByLines(text: string, ctx: Context)
    requires |ctx.lf| > 0
    ensures var lines := Split(text, ctx.lf);
      && (RenderIndex(text, ctx).Success? <==> forall i :: 0 <= i < |lines| ==> Renderer(ctx)(lines[i]).Success?)
      && (RenderIndex(text, ctx).Success? ==>
            exists out: seq<string> :: |out| == |lines| && RenderIndex(text, ctx).value == Join(out, ctx.lf)
              && forall i :: 0 <= i < |lines| ==> Renderer(ctx)(lines[i]) == Success(out[i]))
      && (RenderIndex(text, ctx).Failure? ==>
            exists i :: 0 <= i < |lines| && FirstFailure(lines, Renderer(ctx), i, RenderIndex(text, ctx).error))
  {
    MapTextByLines(text, Renderer(ctx), ctx.lf);
  }

  /** Mapping every line to itself gives the text back. */
  lemma MapTextIdentity(text: string, f: string -> Result<string, Error>, lf: string)
    requires |lf| > 0
    requires forall i :: 0 <= i < |Split(text, lf)| ==> f(Split(text, lf)[i]) == Success(Split(text, lf)[i])
    ensures MapText(text, f, lf) == Success(text)
  {
    var lines := Split(text, lf);
    assert MapLines(lines, f).value == lines;
  }

  /** A template without markers renders to itself. */
  lemma UnmarkedTemplateUnchanged(text: string, ctx: Context)
    requires |ctx.lf| > 0
    requires forall i, kind, p: nat, e: nat, j: nat :: 0 <= i < |Split(text, ctx.lf)| ==>
      !PatternMatch(Split(text, ctx.lf)[i], kind, p, e, j)
    ensures RenderIndex(text, ctx) == Success(text)
  {
    var lines := Split(text, ctx.lf);
    forall i | 0 <= i < |lines|
      ensures Renderer(ctx)(lines[i]) == Success(lines[i])
    {
      UnmarkedLineUnchanged(lines[i], ctx);
    }
    MapTextIdentity(text, Renderer(ctx), ctx.lf);
  }
}
