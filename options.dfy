/** How index.js reads its `output` and `options` arguments: the mode chosen
    from the output's extension and the defaults of the recognised options. */
module Options {

  import opened Wrappers
  import opened NodePath

  /** The recognised fields of `options`; `None` is a field left undefined. */
  datatype UserOptions = UserOptions(
    sourceMap: Option<bool>,
    browsers: Option<string>,
    minify: Option<bool>,
    bundle: Option<bool>)

  /** Script mode concatenates JavaScript; style mode imports stylesheets. */
  datatype Mode = Script | Style

  /** index.js:16, `Path.extname(output) == ".js"`. */
  function ModeOf(output: string): Mode {
    if Extname(output) == ".js" then Script else Style
  }

  /** Script mode is chosen exactly when the output's last path piece ends in
      ".js" after at least one other character. */
  lemma ScriptModeIff(output: string)
    ensures ModeOf(output) == Script <==>
      |Basename(output)| >= 4 && Basename(output)[|Basename(output)| - 3..] == ".js"
  {
    ExtIsJs(Basename(output));
  }

  const DefaultQuery: string := "defaults"

  /** index.js:19, `options.sourceMap ?? false`. */
  function SourceMapOf(o: UserOptions): bool {
    o.sourceMap.GetOr(false)
  }

  /** index.js:21, `options.browsers ?? 'defaults'`. */
  function QueryOf(o: UserOptions): string {
    o.browsers.GetOr(DefaultQuery)
  }

  /** index.js:36, `options.minify !== false`. */
  function MinifyOf(o: UserOptions): bool {
    o.minify != Some(false)
  }

  /** index.js:51 and 99: `Boolean(options.bundle)` in script mode, always
      on in style mode. */
  function BundleOf(o: UserOptions, mode: Mode): bool {
    match mode
    case Script => o.bundle == Some(true)
    case Style => true
  }

  /** With every option left undefined: no source map, the "defaults"
      query, minification on, and bundling only in style mode. */
  lemma Defaults(mode: Mode)
    ensures var o := UserOptions(None, None, None, None);
      && !SourceMapOf(o)
      && QueryOf(o) == "defaults"
      && MinifyOf(o)
      && (BundleOf(o, mode) <==> mode == Style)
  {
  }

  /** A value given explicitly is the value used, except that style mode
      bundles whatever `bundle` says. */
  lemma ExplicitValues(o: UserOptions, mode: Mode)
    ensures o.sourceMap.Some? ==> SourceMapOf(o) == o.sourceMap.value
    ensures o.browsers.Some? ==> QueryOf(o) == o.browsers.value
    ensures o.minify.Some? ==> MinifyOf(o) == o.minify.value
    ensures mode == Script && o.bundle.Some? ==> BundleOf(o, mode) == o.bundle.value
    ensures mode == Style ==> BundleOf(o, mode)
  {
  }
}
