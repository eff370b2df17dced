# grunt-asset-packager, modelled in Dafny

A model of the logic inside the `asset_packager` Grunt task (`tasks/asset_packager.js`).

The task reads package manifests: one file per package. Each line names a source prefix
and a file name, separated by the `asset_path_separator` option. The package is named
after the manifest's base name without its last extension.

After that it does two things:

- It hands work to other Grunt tasks. In DEVELOPMENT mode it copies every packaged file.
  In PRODUCTION mode it concatenates and minifies one bundle per package.
- It rewrites an index template, or, without one, writes one include file per package.
  In the template, a line holding a `<script-package src=…>` or `<style-package src=…>`
  marker becomes one tag per packaged file (DEVELOPMENT) or one tag naming the bundle
  (PRODUCTION). A line holding a `<script-partial src=…>` marker becomes the named file's
  text, optionally passed through a template substitution.

Modules, leaves first:

- `Wrappers`: `Option` and `Result`.
- `Strings`: JavaScript's `split`/`join` with a string separator, `indexOf`, suffix
  tests, the `chomp` of one trailing line terminator, and the text `undefined` becomes
  when concatenated.
- `Files`: the file system as a map from path to node, and the writes the task requests.
- `Errors`: every fatal outcome (`grunt.fail.warn`, `grunt.warn`, the TypeErrors the code
  can raise).
- `Manifest`: `buildPackageContents` and the package name of a manifest path.
- `Registry`: the `packages` object, an insertion-ordered map.
- `Markers`: an explicit scanner for the three marker regular expressions and the
  `process=` flag. It is proved to return the match that backtracking reaches first.
- `Expander`: `outputPrefix`, `expandLine` and `processLine`.
- `Render`: `writePartial` and the line loop of `writeIndexFile`.
- `Includes`: the include names and contents of `writeIncludes`.
- `Config`: option defaults, `checkConfiguration`, and `sourceDest`.
- `Dispatch`: the copy list, and the `concat`/`uglify`/`cssmin` file maps.
- `Task`: the task body, composing all of the above.

The file system, the `mode` setting, the template substitution and the platform line feed
are parameters. Nothing is read or written. A run returns either the first fatal error,
or the configuration handed to the other tasks together with the file writes it requests.

The model follows the code in these cases:

- A manifest line without the separator is not an error. Its file name is `undefined`.
- An empty manifest gives one entry with an empty prefix, not an empty list.
- Under the empty separator an empty manifest line splits into no parts. Its copy and
  bundle source is `undefined + undefined`, which JavaScript evaluates to NaN and the
  configuration holds as "NaN".
- A missing partial is fatal. `grunt.warn` is Grunt's `grunt.fail.warn`, so the run stops
  unless `--force` is given.
- The quoted name of a marker may begin with its own delimiter. The lazy `+?` consumes one
  character before it looks for the closing quote. It may also hold any character except
  U+0002, because `[^\2]` is an octal escape inside a character class, not a backreference.
  `|` is a delimiter as well as `'` and `"`.
- The output path is prefix plus file name. A manifest line `public/ js/a.js` with the
  `js` prefix therefore gives `js/js/a.js`. A manifest stored as `common.js` defines the
  package `common`, not `common.js`.

## Model

| member | source | states |
|---|---|---|
| Strings.Split | tasks/asset_packager.js:139 | `split` gives at least one piece; the pieces joined with the separator give back the input; no piece contains the separator |
| Strings.SplitJoin | tasks/asset_packager.js:139-142 | splitting what was joined returns the pieces, when no piece holds the separator and the separator cannot overlap itself |
| Strings.SplitSingleton | tasks/asset_packager.js:139-142 | `split` returns the whole text as its only piece exactly when the separator does not occur |
| Strings.SplitSecond | tasks/asset_packager.js:142-146 | there is a second piece exactly when the separator occurs, and it is the text between the first and second separators |
| Strings.Chomp | tasks/asset_packager.js:139 | the result is a prefix of the input; it differs exactly when the input ends in a line terminator, and then one CR LF, LF or CR was removed |
| Manifest.ParseEntry | tasks/asset_packager.js:142-146 | a line without the separator gives the whole line as prefix and no file name; otherwise the text before the first separator, and the text between the first and second (later parts dropped); an empty separator takes single characters |
| Manifest.BuildPackageContents | tasks/asset_packager.js:138-148 | a manifest always gives at least one entry; empty content gives the single entry of the empty line |
| Manifest.ParseEntryEmpty | tasks/asset_packager.js:138-147 | the empty line gives an empty prefix and no file name, or no parts at all under the empty separator |
| Manifest.ManifestLines | tasks/asset_packager.js:138-147 | N lines without a trailing terminator give exactly N entries, entry k parsed from line k |
| Manifest.EntryLineParses | tasks/asset_packager.js:142-146 | a line written as prefix, separator, file name parses back to that entry |
| Manifest.ManifestRoundTrip | tasks/asset_packager.js:138-147 | writing entries one per line and parsing the text returns the entries |
| Manifest.BaseName | tasks/asset_packager.js:206 | the base name is a suffix of the path with no '/', preceded by a '/' when shorter than the path |
| Manifest.PackageNameStripsLastExtension | tasks/asset_packager.js:206 | the package name is the base name cut at its last dot, unless that dot opens the base name or the base name is ".." |
| Manifest.PackageNameExample | tasks/asset_packager.js:206 | `pkgs/common.js.pkg` defines the package `common.js` |
| Registry.Register | tasks/asset_packager.js:207 | the name holds the new files; a new name is appended to the key order, a known one keeps its place |
| Registry.RegisterKeepsOthers | tasks/asset_packager.js:207 | registering adds only that name and leaves every other name's files unchanged |
| Registry.RegisterPreservesValid | tasks/asset_packager.js:207 | names stay distinct and in one-to-one agreement with the map's keys |
| Registry.BuildValid | tasks/asset_packager.js:203-208 | the built registry is well formed, and a name is registered exactly when some manifest path defines it |
| Registry.BuildNonEmpty | tasks/asset_packager.js:203-208 | every registered package lists at least one file, since even an empty manifest gives one entry |
| Registry.LastWriteWins | tasks/asset_packager.js:203-208 | a package name shared by several manifests holds the files of the last of them |
| Registry.NamesKeepFirstPosition | tasks/asset_packager.js:203-208 | further manifests never reorder the names already registered |
| Markers.MatchIsFirstMatch | tasks/asset_packager.js:35-38 | the scanner finds nothing exactly when the pattern matches nowhere; otherwise it reports the captures of the leftmost match with the longest white space run and the shortest name |
| Markers.MatchOfFirstMatch | tasks/asset_packager.js:35-38 | the first match in backtracking order is unique, so it is always the one whose captures are reported |
| Markers.MatchCaptures | tasks/asset_packager.js:35-38 | a match captures white space only, a delimiter among `"`, `|`, `'`, and a non-empty name free of U+0002 whose characters after the first differ from the delimiter |
| Markers.MatchMarkerText | tasks/asset_packager.js:35-38 | a line starting with white space, the opening text, a delimiter, an admissible name and the same delimiter yields exactly those captures, whatever follows |
| Markers.QuoteSymmetryExample | tasks/asset_packager.js:37 | a single-quoted name may hold a double quote |
| Markers.DoubledDelimiterOpensName | tasks/asset_packager.js:37 | an empty pair of delimiters does not close a name: the second delimiter starts the name, which runs to the next delimiter |
| Markers.HasProcessFlag | tasks/asset_packager.js:36 | the flag is set exactly when `process=`, a delimiter, `true` and the same delimiter occur somewhere on the line |
| Expander.OutputPrefixBySuffix | tasks/asset_packager.js:150-158 | no prefix object gives ""; otherwise the `js` entry for a name ending in "js", else the `css` entry for one ending in "css", else "undefined", each followed by "/" |
| Expander.MarkerPrefixes | tasks/asset_packager.js:75-77 | the script marker takes the `js` entry and the style marker the `css` entry |
| Expander.ProcessLine | tasks/asset_packager.js:88-102 | the expansion fails exactly for an unregistered name, with that name |
| Expander.DevelopmentExpansion | tasks/asset_packager.js:91-95 | in DEVELOPMENT K files give exactly K lines, line k being white space, opening text, prefix, file name k, closing text |
| Expander.EmptyPackageExpansion | tasks/asset_packager.js:93-95 | a registered package with no files expands to an empty line |
| Expander.ProductionExpansion | tasks/asset_packager.js:96-97 | in PRODUCTION the expansion is exactly one line naming the package |
| Render.WritePartial | tasks/asset_packager.js:108-120 | a regular file gives its text, substituted only when the flag is set, and no warning; anything else gives "" and the 'No partial' warning |
| Render.MapLines | tasks/asset_packager.js:72-81 | all lines render exactly when each does; output line i is the rendering of input line i alone; on failure the error is that of the first failing line |
| Render.UnmarkedLineUnchanged | tasks/asset_packager.js:72-81 | a line on which none of the three patterns matches is kept as it is |
| Render.ScriptMarkerLine | tasks/asset_packager.js:74-75 | a line whose script pattern first matches anywhere in it becomes, as a whole, the package's script expansion with the `js` prefix, built from the captured white space and name only; the text before and after the marker is dropped |
| Render.StyleMarkerLine | tasks/asset_packager.js:76-77 | a line with no script marker whose style pattern first matches anywhere in it becomes, as a whole, the package's stylesheet expansion with the `css` prefix |
| Render.PartialMarkerLine | tasks/asset_packager.js:78-79 | a line with no package marker whose partial pattern first matches anywhere in it becomes, as a whole, the file's text, substituted when the line has the flag, and is not scanned again; a missing file stops the run |
| Render.MapTextByLines | tasks/asset_packager.js:69-83 | mapping a text line by line gives one mapped line per split line joined with the separator, and fails exactly when a line fails, with the first failing line's error |
| Render.MapTextIdentity | tasks/asset_packager.js:69-83 | a line map that keeps every line keeps the whole text |
| Render.RenderIndexByLines | tasks/asset_packager.js:69-83 | the document is one rendered line per template line joined with the line feed; it fails exactly when a line fails, with the first such line's error |
| Render.UnmarkedTemplateUnchanged | tasks/asset_packager.js:69-83 | a template without markers renders to itself |
| Includes.IncludeNameByDot | tasks/asset_packager.js:52 | the first dot and the following text up to a line terminator become ".html"; a name without a dot is kept |
| Includes.IncludeNameOfStem | tasks/asset_packager.js:52 | only the first dot counts: a dot-free stem, a dot and a one-line extension give the stem with `.html` (so `jquery.min.js` gives `jquery.html`) |
| Includes.IncludeNameWithoutDot | tasks/asset_packager.js:52 | a key without a dot is its own include name |
| Includes.IncludeIsScriptExpansion | tasks/asset_packager.js:54-60 | an include holds the script-marker expansion with no white space and the `js` prefix entry |
| Includes.WriteIncludes | tasks/asset_packager.js:51-62 | one write per package, in order, each the package's include path and content; fails, with the missing prefix, exactly when there is no prefix object and some package reads it: in production every package, in development a package with files |
| Includes.EmptyIncludesWithoutPrefix | tasks/asset_packager.js:54-57 | in development, packages without files get empty includes even when there is no prefix object |
| Includes.IncludeWritten | tasks/asset_packager.js:51-62 | every package's include file ends up holding its content unless a later package maps to the same include name |
| Files.LastWriteLands | tasks/asset_packager.js:61 | a write that no later write to the same path follows leaves its content at that path |
| Config.WithDefaults | tasks/asset_packager.js:188-194 | a missing separator becomes " " and a missing prefix object becomes `{js: 'js', css: 'css'}`; given values are kept whole |
| Config.DefaultPrefixes | tasks/asset_packager.js:188-194 | the default prefixes send scripts to "js/" and stylesheets to "css/"; a configured object without `css` sends stylesheets to "undefined/" |
| Config.ParseMode | tasks/asset_packager.js:181 | only "DEVELOPMENT" and "PRODUCTION" are modes |
| Config.CheckConfiguration | tasks/asset_packager.js:160-184 | succeeds exactly when index, destination and no `js` object, or no index and a `js` object with both directories, are given with a valid mode, and yields that mode; the mode error comes only after the option checks pass |
| Config.ConfigurationErrors | tasks/asset_packager.js:160-179 | each rejected combination reports the first failing check in source order |
| Config.SourceDest | tasks/asset_packager.js:199 | the destination when it is truthy, else the `js` source directory, and a TypeError when neither a destination nor a `js` object exists |
| Config.SourceDestOfAccepted | tasks/asset_packager.js:199 | on an accepted configuration the source destination is a non-empty string, the destination taking precedence |
| Dispatch.CopiesCount | tasks/asset_packager.js:214-222 | there is one copy request per packaged file, summed over the packages |
| Dispatch.ParsedSourcePath | tasks/asset_packager.js:217 | a file's source path is `src_prefix + filename`: "NaN" for the empty line under the empty separator, where both parts are undefined, and otherwise the prefix followed by the file name or "undefined" |
| Dispatch.CopiesLayout | tasks/asset_packager.js:214-222 | file k of the i-th package is copied right after the copies of the earlier packages, from prefix plus file name to source destination, prefix and file name |
| Dispatch.BundleKeys | tasks/asset_packager.js:235-246 | `concat` and `uglify` hold exactly the destinations ending in "js", each minified onto itself; `cssmin` exactly those ending in "css" and not "js" |
| Dispatch.BundleContents | tasks/asset_packager.js:235-246 | a package whose destination no later package shares is bundled from its files' source paths in file order |
| Dispatch.PlanFor | tasks/asset_packager.js:210-248 | DEVELOPMENT hands on copies, PRODUCTION bundles |
| Task.RunChecksConfiguration | tasks/asset_packager.js:199-201 | a run passes the configuration exactly when it is accepted with a valid mode; otherwise it stops with the TypeError of line 199 or the first failing check |
| Task.RunStages | tasks/asset_packager.js:201-255 | past the configuration a run hands on the plan for its mode and requests the writes of its final branch |
| Task.RunWithIndex | tasks/asset_packager.js:251-252 | with an index the run writes only `index.html` under the destination, holding the rendered template; an unreadable template or a failing line stops it |
| Task.IndexOutputs | tasks/asset_packager.js:65-86 | the index branch reads the template, renders it and writes it to `dest/index.html` |
| Task.RunWithIncludes | tasks/asset_packager.js:253-255 | without an index the run writes one include per package; since every built package lists a file, it fails exactly when there is a package and no prefix object |

## Left out

- File access (`grunt.file.read`, `write`, `exists`, `isFile`) is a map from path to node
  plus a list of requested writes. Manifests arrive as (path, text) pairs. An unreadable
  manifest and a manifest entry whose `src` lists several files are not modelled.
- `createExternalConfig`, `runTasks`, `grunt.config` and `grunt.task.run` only register
  configuration with Grunt (lines 122-136). The model returns the `files` objects they
  would register. The copy, concat, uglify and cssmin operations themselves are not run.
- The concat separator and the uglify and cssmin banners are not modelled. The banners
  come from the clock.
- `grunt.template.process` is the parameter `substitute`. `options.process` is folded
  into it.
- Logging is not modelled. The `--force` flag is not modelled either: every warning is
  fatal. Under `--force` the code would go on, and for example write "undefined" for an
  unknown package.
- The `mode` setting (line 195) is a parameter.
- `path.sep` is fixed to "/" and base names follow POSIX. `grunt.util.linefeed` is a
  non-empty parameter. The round-trip lemmas need a line feed that cannot overlap itself,
  which "\n" and "\r\n" satisfy.
- The source of the `chomp` library is not part of this model. `Strings.Chomp` assumes it
  removes one trailing CR LF, LF or CR.
- JavaScript object key order puts integer-like keys first. The registry keeps every name
  in insertion order.
- Names inherited from `Object.prototype`, such as `constructor`, count as registered in
  the code's `packages[name]` test. The model treats them as unregistered.
- Strings are sequences of Unicode scalar values, not UTF-16 code units. This matters for
  `split('')` and the regular expressions only on characters outside the Basic
  Multilingual Plane.
- Non-string option values are not modelled: numbers, or a truthy non-object `js`. A
  falsy but non-null prefix such as `''` is not modelled either; the code reads `''.js`
  as `undefined` rather than raising a TypeError.
- Dispatch.BundleContents: says nothing about the bundle of a package when a later
  package has the same destination. The later package's files win there.
- Includes.IncludeWritten: says nothing about an include file when a later package maps
  to the same include name. The later package wins there.
- Registry.LastWriteWins: states the files of a name's last manifest. When several
  manifests share a name, the files of the earlier ones are not stated; the last one
  overwrites them.
- `Registry.FilesOf` reads a name the registry does not hold as an empty package. A
  well-formed registry holds every name it lists, so this case does not arise from
  `buildPackages`.
- A fatal error ends the run with the error alone. Files `grunt.file.write` wrote before
  the error, such as the includes of earlier packages before a missing prefix object
  raises its TypeError, are not part of the result.
