/**
  The task's options: the defaults `this.options` merges in, the `sourceDest` the task
  derives, and `checkConfiguration`, whose first failing check stops the run.
 */
module Config {
  import opened Wrappers
  import opened Errors
  import opened Expander

  /** `options.js`: where include files go and where sources are copied. */
  datatype JsOptions = JsOptions(includes: Option<string>, source: Option<string>)

  /**
    The options after the defaults are merged. A string option is `None` when it is
    missing or set to a value that is neither a string nor truthy.
   */
  datatype Options = Options(
    index: Option<string>,
    dest: Option<string>,
    js: Option<JsOptions>,
    assetPathSeparator: string,
    outputPrefix: Option<PrefixConfig>)

  /**
    The options as the target configures them. `outputPrefix` is `None` when not given and
    `Some(None)` when given a falsy value.
   */
  datatype UserOptions = UserOptions(
    index: Option<string>,
    dest: Option<string>,
    js: Option<JsOptions>,
    assetPathSeparator: Option<string>,
    outputPrefix: Option<Option<PrefixConfig>>)

  const DefaultSeparator: string := " "
  const DefaultPrefix: PrefixConfig := PrefixConfig(Some("js"), Some("css"))

  /** `this.options(defaults)`: a shallow merge, so a configured prefix object replaces the default one whole. */
  function WithDefaults(u: UserOptions): (o: Options)
    ensures o.index == u.index && o.dest == u.dest && o.js == u.js
    ensures u.assetPathSeparator.None? ==> o.assetPathSeparator == " "
    ensures u.assetPathSeparator.Some? ==> o.assetPathSeparator == u.assetPathSeparator.value
    ensures u.outputPrefix.None? ==> o.outputPrefix == Some(PrefixConfig(Some("js"), Some("css")))
    ensures u.outputPrefix.Some? ==> o.outputPrefix == u.outputPrefix.value
  {
    Options(
      u.index, u.dest, u.js,
      if u.assetPathSeparator.Some? then u.assetPathSeparator.value else DefaultSeparator,
      if u.outputPrefix.Some? then u.outputPrefix.value else Some(DefaultPrefix))
  }

  /**
    With the default prefixes a script package goes under "js/" and a stylesheet package
    under "css/"; a configured object without a `css` entry sends stylesheets to
    "undefined/".
   */
  lemma DefaultPrefixes(u: UserOptions, js: string)
    ensures u.outputPrefix.None? ==>
      OutputPrefix(WithDefaults(u).outputPrefix, "app.js") == "js/"
      && OutputPrefix(WithDefaults(u).outputPrefix, "site.css") == "css/"
    ensures u.outputPrefix == Some(Some(PrefixConfig(Some(js), None))) ==>
      OutputPrefix(WithDefaults(u).outputPrefix, "site.css") == "undefined/"
  {
    OutputPrefixBySuffix(WithDefaults(u).outputPrefix, "app.js");
    OutputPrefixBySuffix(WithDefaults(u).outputPrefix, "site.css");
    assert "app.js"[4..] == "js";
    assert "site.css"[6..] == "ss" && "site.css"[5..] == "css";
  }

  /** JavaScript truthiness of a string option: present and not empty. */
  predicate Truthy(v: Option<string>) {
    v.Some? && v.value != ""
  }

  /** The `mode` setting `checkConfiguration` accepts. */
  function ParseMode(setting: Option<string>): (m: Option<Mode>)
    ensures m == Some(Development) <==> setting == Some("DEVELOPMENT")
    ensures m == Some(Production) <==> setting == Some("PRODUCTION")
  {
    if setting == Some("DEVELOPMENT") then Some(Development)
    else if setting == Some("PRODUCTION") then Some(Production)
    else None
  }

  /**
    The configurations `checkConfiguration` lets through: an index with a destination and
    no `js` object, or no index and a `js` object with both directories.
   */
  predicate Accepted(o: Options) {
    || (Truthy(o.index) && o.js.None? && Truthy(o.dest))
    || (!Truthy(o.index) && o.js.Some? && Truthy(o.js.value.includes) && Truthy(o.js.value.source))
  }

  function ModeCheck(setting: Option<string>): Result<Mode, Error> {
    match ParseMode(setting)
    case None => Failure(InvalidMode)
    case Some(mode) => Success(mode)
  }

  /**
    `checkConfiguration`: the checks in source order, each failure fatal. It succeeds
    exactly on an accepted configuration with a valid mode, and then yields that mode.
   */
  function CheckConfiguration(o: Options, setting: Option<string>): (r: Result<Mode, Error>)
    ensures r.Success? <==> Accepted(o) && ParseMode(setting).Some?
    ensures r.Success? ==> Some(r.value) == ParseMode(setting)
    ensures r.Failure? && Accepted(o) ==> r.error == InvalidMode
    ensures r.Failure? && !Accepted(o) ==> r.error != InvalidMode
  {
    if Truthy(o.index) then
      if o.js.Some? then Failure(IndexAndJsBothSet)
      else if !Truthy(o.dest) then Failure(NoDest)
      else ModeCheck(setting)
    else if o.js.Some? then
      if !Truthy(o.js.value.includes) then Failure(NoJsIncludes)
      else if !Truthy(o.js.value.source) then Failure(NoJsSource)
      else ModeCheck(setting)
    else Failure(NeitherIndexNorJs)
  }

  /** Which error a rejected configuration reports: the first failing check in source order. */
  lemma ConfigurationErrors(o: Options, setting: Option<string>)
    ensures Truthy(o.index) && o.js.Some? ==> CheckConfiguration(o, setting) == Failure(IndexAndJsBothSet)
    ensures Truthy(o.index) && o.js.None? && !Truthy(o.dest) ==> CheckConfiguration(o, setting) == Failure(NoDest)
    ensures !Truthy(o.index) && o.js.None? ==> CheckConfiguration(o, setting) == Failure(NeitherIndexNorJs)
    ensures !Truthy(o.index) && o.js.Some? && !Truthy(o.js.value.includes) ==>
      CheckConfiguration(o, setting) == Failure(NoJsIncludes)
    ensures !Truthy(o.index) && o.js.Some? && Truthy(o.js.value.includes) && !Truthy(o.js.value.source) ==>
      CheckConfiguration(o, setting) == Failure(NoJsSource)
  {
  }

  /**
    `options.dest || options.js.source`, evaluated before the configuration is checked: a
    falsy destination without a `js` object is a TypeError.
   */
  function SourceDest(o: Options): (r: Result<Option<string>, Error>)
    ensures Truthy(o.dest) ==> r == Success(o.dest)
    ensures !Truthy(o.dest) && o.js.None? ==> r == Failure(MissingJsOptions)
    ensures !Truthy(o.dest) && o.js.Some? ==> r == Success(o.js.value.source)
  {
    if Truthy(o.dest) then Success(o.dest)
    else if o.js.None? then Failure(MissingJsOptions)
    else Success(o.js.value.source)
  }

  /**
    On an accepted configuration the source destination is a non-empty string: the
    destination when one is set (even when a `js` object names a source directory), and
    otherwise the `js` source directory.
   */
  lemma SourceDestOfAccepted(o: Options)
    requires Accepted(o)
    ensures SourceDest(o).Success? && Truthy(SourceDest(o).value)
    ensures Truthy(o.dest) ==> SourceDest(o).value == o.dest
    ensures !Truthy(o.dest) ==> SourceDest(o).value == o.js.value.source
  {
  }
}
