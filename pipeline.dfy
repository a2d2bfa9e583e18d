/** The exported function of index.js up to the `build` call: the esbuild
    options it assembles from `inputs`, `output` and `options`. */
module Pipeline {

  import opened Wrappers
  import opened Strings
  import opened Buffers
  import opened NodePath
  import opened Host
  import opened SourceMap
  import opened Assemble
  import opened UserAgent
  import opened Options
  import opened Plugins

  datatype Format = Iife

  /** The plugins handed to esbuild. `browserslistToTargets` and the options
      of the browserslist plugin are not modelled, so both take the entries. */
  datatype Plugin =
    | BrowserslistPlugin(browsers: seq<string>)
    | CopyPlugin
    | HttpPlugin(userAgent: Option<string>)
    | LightningPlugin(browsers: seq<string>)

  /** `stdin.contents`: the bytes of a Buffer or a string. */
  datatype Contents = Bytes(bytes: Buffer) | Text(text: string)

  datatype Stdin = Stdin(contents: Contents, resolveDir: seq<string>, sourcefile: string, loader: Loader)

  /** The `esOpts` object (index.js:24-44 with the mode-specific fields). */
  datatype BuildOptions = BuildOptions(
    sourcemap: bool,
    sourcesContent: bool,
    preserveSymlinks: bool,
    stdin: Stdin,
    outfile: string,
    write: bool,
    allowOverwrite: bool,
    minify: bool,
    ignoreAnnotations: bool,
    legalComments: string,
    plugins: seq<Plugin>,
    loader: map<string, Loader>,
    bundle: bool,
    format: Option<Format>)

  /** `Path.dirname(output)` taken from the working directory: the directory
      that holds the output. */
  function OutputDir(cwd: seq<string>, output: string): (dir: seq<string>)
    requires IsNormal(cwd)
    ensures IsNormal(dir)
  {
    var full := Resolve(cwd, output);
    if full == [] then [] else full[..|full| - 1]
  }

  /** The entry document for the mode. */
  function EntryContents(mode: Mode, sourceMap: bool, inputs: seq<Input>, output: string, dir: seq<string>,
                         fs: FileSystem, decode: Buffer -> string, render: Generated -> Buffer)
    : Result<Contents, Failure>
    requires IsNormal(dir)
  {
    match mode
    case Script =>
      if sourceMap then
        (match ScriptWithMap(inputs, output, dir, fs, decode, render)
         case Err(e) => Err(e)
         case Ok(c) => Ok(Text(c.text)))
      else
        (match ConcatPlain(inputs, fs)
         case Err(e) => Err(e)
         case Ok(b) => Ok(Bytes(b)))
    case Style =>
      match CssEntry(inputs, fs.cwd, dir, decode)
      case Err(e) => Err(e)
      case Ok(s) => Ok(Text(s))
  }

  function PluginsFor(mode: Mode, browsers: seq<string>, userAgent: Option<string>): seq<Plugin> {
    match mode
    case Script => [BrowserslistPlugin(browsers)]
    case Style => [CopyPlugin, HttpPlugin(userAgent), LightningPlugin(browsers)]
  }

  /** The options passed to `build`, or the failure that stops the run before
      it. `evaluate` is the browserslist query evaluation. */
  function BuildOptionsOf(inputs: seq<Input>, output: string, o: UserOptions, fs: FileSystem,
                          evaluate: string -> seq<string>, decode: Buffer -> string, render: Generated -> Buffer)
    : Result<BuildOptions, Failure>
  {
    var mode := ModeOf(output);
    var dir := OutputDir(fs.cwd, output);
    var browsers := evaluate(QueryOf(o));
    match EntryContents(mode, SourceMapOf(o), inputs, output, dir, fs, decode, render)
    case Err(e) => Err(e)
    case Ok(contents) =>
      Ok(BuildOptions(
        SourceMapOf(o), false, true,
        Stdin(contents, dir, Basename(output), if mode == Script then Js else Css),
        output, true, true, MinifyOf(o), true, "none",
        PluginsFor(mode, browsers, UserAgentOf(browsers)), LoaderTable,
        BundleOf(o, mode), if mode == Script then Some(Iife) else None))
  }

  /** The settings that depend on the mode: script mode (a ".js" output)
      loads the entry as JavaScript, wraps it in an IIFE, bundles only on
      request and uses the browserslist plugin alone; style mode loads the entry as CSS,
      always bundles and uses `copy`, `http` with the derived User-Agent and
      `lightning`, in that order. */
  lemma ModeSettings(inputs: seq<Input>, output: string, o: UserOptions, fs: FileSystem,
                     evaluate: string -> seq<string>, decode: Buffer -> string, render: Generated -> Buffer)
    ensures
      var r := BuildOptionsOf(inputs, output, o, fs, evaluate, decode, render);
      r.Ok? ==>
      var b := r.value;
      var browsers := evaluate(QueryOf(o));
      && (Extname(output) == ".js" <==> b.stdin.loader == Js)
      && (Extname(output) != ".js" ==> b.stdin.loader == Css)
      && (Extname(output) == ".js" <==> b.format == Some(Iife))
      && (Extname(output) == ".js" ==> b.bundle == (o.bundle == Some(true)) && b.plugins == [BrowserslistPlugin(browsers)])
      && (Extname(output) != ".js" ==>
            b.bundle && b.plugins == [CopyPlugin, HttpPlugin(UserAgentOf(browsers)), LightningPlugin(browsers)])
  {
  }

  /** The settings common to both modes: the source map and minification
      options with their defaults, the output file and its base name, the
      directory imports are resolved from, and the fixed flags. */
  lemma CommonSettings(inputs: seq<Input>, output: string, o: UserOptions, fs: FileSystem,
                       evaluate: string -> seq<string>, decode: Buffer -> string, render: Generated -> Buffer)
    ensures
      var r := BuildOptionsOf(inputs, output, o, fs, evaluate, decode, render);
      r.Ok? ==>
      var b := r.value;
      && b.sourcemap == (o.sourceMap == Some(true))
      && b.minify == (o.minify != Some(false))
      && b.outfile == output && b.stdin.sourcefile == Basename(output)
      && b.stdin.resolveDir == OutputDir(fs.cwd, output)
      && !b.sourcesContent && b.preserveSymlinks && b.write && b.allowOverwrite && b.ignoreAnnotations
      && b.legalComments == "none" && b.loader == LoaderTable
  {
  }

  /** The run stops before `build` exactly when its entry document cannot be
      assembled, and then with the same failure. */
  lemma EntryDecides(inputs: seq<Input>, output: string, o: UserOptions, fs: FileSystem,
                     evaluate: string -> seq<string>, decode: Buffer -> string, render: Generated -> Buffer)
    ensures
      var entry := EntryContents(ModeOf(output), SourceMapOf(o), inputs, output, OutputDir(fs.cwd, output), fs, decode, render);
      var r := BuildOptionsOf(inputs, output, o, fs, evaluate, decode, render);
      && (r.Err? <==> entry.Err?)
      && (r.Err? ==> r.error == entry.error)
      && (r.Ok? ==> r.value.stdin.contents == entry.value)
  {
  }

  /** The entry per mode: the plain concatenation of the inputs' bytes, the
      source-mapped text, or the `@import` statements joined by "\n". */
  lemma EntryByMode(mode: Mode, sourceMap: bool, inputs: seq<Input>, output: string, dir: seq<string>,
                    fs: FileSystem, decode: Buffer -> string, render: Generated -> Buffer)
    requires IsNormal(dir)
    requires EntryContents(mode, sourceMap, inputs, output, dir, fs, decode, render).Ok?
    ensures var c := EntryContents(mode, sourceMap, inputs, output, dir, fs, decode, render).value;
      && (mode == Script && !sourceMap ==> c == Bytes(Concat(ReadAll(inputs, fs).value)))
      && (mode == Script && sourceMap ==>
            var segs := ResolveInputs(inputs, fs, decode, dir).value;
            c == Text(TextOf(segs) + InlineMap(Generated(output, MappingsOf(segs)), render)))
      && (mode == Style ==> c == Text(Join(Imports(inputs, fs.cwd, dir, decode).value, "\n")))
  {
  }

  /** index.js:15-109: the options object built step by step, the entry
      document filled in per mode. */
  method Prepare(inputs: seq<Input>, output: string, o: UserOptions, fs: FileSystem,
                 evaluate: string -> seq<string>, decode: Buffer -> string, render: Generated -> Buffer)
    returns (r: Result<BuildOptions, Failure>)
    ensures r == BuildOptionsOf(inputs, output, o, fs, evaluate, decode, render)
  {
    var isJs := Extname(output) == ".js";
    var resolveDir := OutputDir(fs.cwd, output);
    var sourceMap := SourceMapOf(o);
    var browsers := evaluate(QueryOf(o));
    var userAgent := BrowsersToUserAgent(browsers);
    var plugins: seq<Plugin>;
    var bundle: bool;
    var format: Option<Format> := None;
    var loader: Loader;
    if isJs {
      plugins := [BrowserslistPlugin(browsers)];
      bundle := o.bundle == Some(true);
      format := Some(Iife);
      loader := Js;
    } else {
      plugins := [CopyPlugin, HttpPlugin(userAgent), LightningPlugin(browsers)];
      bundle := true;
      loader := Css;
    }
    var contents := Entry(if isJs then Script else Style, sourceMap, inputs, output, resolveDir, fs, decode, render);
    if contents.Err? {
      return Err(contents.error);
    }
    return Ok(BuildOptions(
      sourceMap, false, true, Stdin(contents.value, resolveDir, Basename(output), loader),
      output, true, true, MinifyOf(o), true, "none", plugins, LoaderTable, bundle, format));
  }

  /** index.js:54-108: `stdin.contents` for the mode. */
  method Entry(mode: Mode, sourceMap: bool, inputs: seq<Input>, output: string, resolveDir: seq<string>,
               fs: FileSystem, decode: Buffer -> string, render: Generated -> Buffer)
    returns (r: Result<Contents, Failure>)
    requires IsNormal(resolveDir)
    ensures r == EntryContents(mode, sourceMap, inputs, output, resolveDir, fs, decode, render)
  {
    if mode == Script {
      if sourceMap {
        var c := ConcatWithSourceMap(inputs, output, resolveDir, fs, decode, render);
        if c.Err? {
          return Err(c.error);
        }
        return Ok(Text(c.value.text));
      } else {
        var buf := ConcatPlain(inputs, fs);
        if buf.Err? {
          return Err(buf.error);
        }
        return Ok(Bytes(buf.value));
      }
    } else {
      var entry := CssEntry(inputs, fs.cwd, resolveDir, decode);
      if entry.Err? {
        return Err(entry.error);
      }
      return Ok(Text(entry.value));
    }
  }
}
