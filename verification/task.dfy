/**
  The `asset_packager` task body: derive the source destination, check the configuration,
  register every manifest, hand the copy or bundle work to the other tasks, then render
  the index template or write the include files. Any fatal warning stops the run with
  nothing written.
 */
module Task {
  import opened Wrappers
  import opened Strings
  import opened Files
  import opened Errors
  import opened Registry
  import opened Expander
  import opened Render
  import opened Includes
  import opened Config
  import opened Dispatch

  /** What a run leaves behind: the configuration for the other tasks and the files it writes. */
  datatype Outcome = Outcome(plan: Plan, writes: seq<FileWrite>)

  /** `writeIndexFile`: the rendered template goes to `index.html` under the destination. */
  function WriteIndex(dest: Option<string>, text: string, ctx: Context): Result<seq<FileWrite>, Error>
    requires |ctx.lf| > 0
  {
    var doc :- RenderIndex(text, ctx);
    Success([FileWrite(AsText(dest) + PathSep + "index.html", doc)])
  }

  /** The final branch of the task body: the index template if one is set, else the include files. */
  function Outputs(o: Options, reg: Registry, mode: Mode, fs: FileSystem, substitute: string -> string, lf: string): Result<seq<FileWrite>, Error>
    requires |lf| > 0 && Valid(reg)
  {
    if Truthy(o.index) then
      match Read(fs, o.index.value)
      case None => Failure(UnreadableFile(o.index.value))
      case Some(text) => WriteIndex(o.dest, text, Context(reg, mode, o.outputPrefix, fs, substitute, lf))
    else if o.js.Some? && Truthy(o.js.value.includes) then
      WriteIncludes(reg, mode, o.outputPrefix, o.js.value.includes.value, lf)
    else
      Success([])
  }

  /**
    One run. `setting` is the `mode` configuration value, `fs` the files the index and the
    partials are read from, `substitute` what `grunt.template.process` does with
    `options.process`, and `lf` the platform line feed.
   */
  function Run(o: Options, setting: Option<string>, manifests: seq<ManifestFile>, fs: FileSystem, substitute: string -> string, lf: string): Result<Outcome, Error>
    requires |lf| > 0
  {
    var sourceDest :- SourceDest(o);
    var mode :- CheckConfiguration(o, setting);
    var reg := Build(manifests, lf, o.assetPathSeparator);
    BuildValid(manifests, lf, o.assetPathSeparator);
    var writes :- Outputs(o, reg, mode, fs, substitute, lf);
    Success(Outcome(PlanFor(reg, mode, AsText(sourceDest), o.outputPrefix), writes))
  }

  /**
    A run gets past the configuration exactly when the configuration is accepted and the
    mode valid. Otherwise it stops with the TypeError of the source destination when the
    destination is falsy and the `js` object missing, and with the first failing check
    otherwise.
   */
  lemma RunChecksConfiguration(o: Options, setting: Option<string>, manifests: seq<ManifestFile>, fs: FileSystem, substitute: string -> string, lf: string)
    requires |lf| > 0
    ensures !(Accepted(o) && ParseMode(setting).Some?) ==>
      && Run(o, setting, manifests, fs, substitute, lf).Failure?
      && Run(o, setting, manifests, fs, substitute, lf).error ==
           (if !Truthy(o.dest) && o.js.None? then MissingJsOptions else CheckConfiguration(o, setting).error)
    ensures Run(o, setting, manifests, fs, substitute, lf).Success? ==>
      Accepted(o) && ParseMode(setting).Some? && Truthy(SourceDest(o).value)
  {
    if Accepted(o) {
      SourceDestOfAccepted(o);
    }
  }

  /** Past the configuration, a run hands on the plan for its mode and writes what the final branch produces. */
  lemma RunStages(o: Options, setting: Option<string>, manifests: seq<ManifestFile>, fs: FileSystem, substitute: string -> string, lf: string)
    requires |lf| > 0
    requires Accepted(o) && ParseMode(setting).Some?
    ensures var reg := Build(manifests, lf, o.assetPathSeparator);
      var mode := ParseMode(setting).value;
      var run := Run(o, setting, manifests, fs, substitute, lf);
      Valid(reg) &&
      var outs := Outputs(o, reg, mode, fs, substitute, lf);
      && (outs.Failure? ==> run == Failure(outs.error))
      && (outs.Success? ==> run.Success? && run.value.writes == outs.value)
      && (run.Success? ==> run.value.plan == PlanFor(reg, mode, AsText(SourceDest(o).value), o.outputPrefix))
      && (run.Success? ==> (run.value.plan.CopyPlan? <==> mode == Development))
  {
    SourceDestOfAccepted(o);
    var mode := ParseMode(setting).value;
    assert CheckConfiguration(o, setting) == Success(mode);
    BuildValid(manifests, lf, o.assetPathSeparator);
  }

  /**
    With an index template the run renders it and writes the result, and only that, to
    `index.html` under the destination; a template that cannot be read, or a line that
    fails to render, stops the run.
   */
  lemma RunWithIndex(o: Options, setting: Option<string>, manifests: seq<ManifestFile>, fs: FileSystem, substitute: string -> string, lf: string)
    requires |lf| > 0
    requires Accepted(o) && Truthy(o.index) && ParseMode(setting).Some?
    ensures var run := Run(o, setting, manifests, fs, substitute, lf);
      var ctx := Context(Build(manifests, lf, o.assetPathSeparator), ParseMode(setting).value, o.outputPrefix, fs, substitute, lf);
      && (!IsRegularFile(fs, o.index.value) ==> run == Failure(UnreadableFile(o.index.value)))
      && (IsRegularFile(fs, o.index.value) && RenderIndex(fs[o.index.value].content, ctx).Failure? ==>
            run == Failure(RenderIndex(fs[o.index.value].content, ctx).error))
      && (IsRegularFile(fs, o.index.value) && RenderIndex(fs[o.index.value].content, ctx).Success? ==>
            run.Success? && run.value.writes == [FileWrite(o.dest.value + "/index.html", RenderIndex(fs[o.index.value].content, ctx).value)])
  {
    RunStages(o, setting, manifests, fs, substitute, lf);
    IndexOutputs(o, Build(manifests, lf, o.assetPathSeparator), ParseMode(setting).value, fs, substitute, lf);
  }

  /** The final branch with an index template: read it, render it, write `index.html`. */
  lemma IndexOutputs(o: Options, reg: Registry, mode: Mode, fs: FileSystem, substitute: string -> string, lf: string)
    requires |lf| > 0 && Valid(reg) && Truthy(o.index) && Truthy(o.dest)
    ensures var outs := Outputs(o, reg, mode, fs, substitute, lf);
      var ctx := Context(reg, mode, o.outputPrefix, fs, substitute, lf);
      && (!IsRegularFile(fs, o.index.value) ==> outs == Failure(UnreadableFile(o.index.value)))
      && (IsRegularFile(fs, o.index.value) && RenderIndex(fs[o.index.value].content, ctx).Failure? ==>
            outs == Failure(RenderIndex(fs[o.index.value].content, ctx).error))
      && (IsRegularFile(fs, o.index.value) && RenderIndex(fs[o.index.value].content, ctx).Success? ==>
            outs == Success([FileWrite(o.dest.value + "/index.html", RenderIndex(fs[o.index.value].content, ctx).value)]))
  {
    assert AsText(o.dest) + PathSep + "index.html" == o.dest.value + "/index.html";
  }

  /**
    Without an index template the run writes one include per package under the `js`
    includes directory. Every built package lists a file, so each one reads the `js`
    prefix, and the run fails exactly when there is a package but no prefix object.
   */
  lemma RunWithIncludes(o: Options, setting: Option<string>, manifests: seq<ManifestFile>, fs: FileSystem, substitute: string -> string, lf: string)
    requires |lf| > 0
    requires Accepted(o) && !Truthy(o.index) && ParseMode(setting).Some?
    ensures var run := Run(o, setting, manifests, fs, substitute, lf);
      var reg := Build(manifests, lf, o.assetPathSeparator);
      && (run.Failure? <==> |reg.names| > 0 && o.outputPrefix.None?)
      && (run.Failure? ==> run.error == MissingOutputPrefix)
      && (run.Success? ==> |run.value.writes| == |reg.names|)
  {
    RunStages(o, setting, manifests, fs, substitute, lf);
    var reg := Build(manifests, lf, o.assetPathSeparator);
    BuildNonEmpty(manifests, lf, o.assetPathSeparator);
    if |reg.names| > 0 {
      assert reg.names[0] in reg.packages;
      assert ReadsJsPrefix(FilesOf(reg.packages, reg.names[0]), ParseMode(setting).value);
    }
  }
}
