# postinstall-esbuild: a Dafny model of `index.js`

postinstall-esbuild is one asynchronous function, `(inputs, output, options)`,
that turns a list of input files into a single esbuild build. The extension of
`output` picks the mode:

- **Script mode** (a ".js" output) concatenates the inputs into one entry
  document. When `sourceMap` is set, the inputs are read line by line. Each
  line gets one source-map mapping, and the map is appended as a base64
  `sourceMappingURL` data URI. Without a source map, the raw bytes are
  concatenated, and Buffers are taken as they are.
- **Style mode** (any other output) writes one `@import "…";` line per input.
  An input path is written relative to the output's directory. An http(s) URL
  is written unchanged. The build then gets three plugins:
  - `copy`: copies files that no loader claims;
  - `http`: fetches remote references, sending a User-Agent header;
  - `lightning`.
- The User-Agent comes from the browserslist entries. Firefox, Safari and
  Chrome are tried in that order, and the smallest version of the first family
  present (and not 0) is used.

The model follows that structure, module by module:

| module | file | what it holds |
|---|---|---|
| `Wrappers` | wrappers.dfy | `Option`, `Result` |
| `Strings` | strings.dfy | `includes`, first-occurrence `replace`, `join`, the http(s) URL test |
| `Readline` | readline.dfy | the line splitting of `readline.createInterface` with `crlfDelay: Infinity` |
| `NodePath` | nodepath.dfy | POSIX `path.resolve`, `path.relative`, `basename` and `extname`, on segment lists |
| `Base64` | base64.dfy | base64 encoding (section 4 of RFC 4648) and a decoding that inverts it (padding only at the end) |
| `Buffers` | buffers.dfy | `Buffer.concat` |
| `Host` | host.dfy | a file system as a map from resolved paths to bytes, and `readFile` |
| `SourceMap` | sourcemap.dfy | the `SourceMapGenerator` and `PassThrough` objects (classes), and the map the concatenation produces |
| `Assemble` | assemble.dfy | the two script concatenations, `inlineMap`, and the style-mode entry |
| `Versions` | versions.dfy | `parseFloat` on browserslist versions, numeric order, minimum, and the text form |
| `UserAgent` | useragent.dfy | `browsersToUserAgent`, as a method and as its specification |
| `Options` | options.dfy | the mode and the option defaults |
| `Plugins` | plugins.dfy | the `copy` and `http` plugin callbacks |
| `Pipeline` | pipeline.dfy | the exported function up to the `build` call: the whole `esOpts` object |
| `NodePathExamples`, `UserAgentExamples` | nodepath_examples.dfy, useragent_examples.dfy | the expectations of the repository's tests, proved on the model |

Parameters stand for everything the code takes from outside:

| parameter | stands for |
|---|---|
| `fs: FileSystem` | the disk and the working directory |
| `decode` | UTF-8 decoding of file bytes |
| `render` | `Buffer.from(map.toString())` |
| `evaluate` | browserslist query evaluation |
| `fetch` | `fetch` |
| `getExtension` | `mime.getExtension` |
| `resolveUrl` | `new URL(path, base)` |

A failure that rejects the returned promise becomes an `Err` of `Host.Failure`. There are two kinds:

- `ReadError(path)`: a file cannot be read.
- `InvalidArgType`: `Path.relative` was given a Buffer. This happens for any Buffer input in source-map mode, and in style mode for a Buffer whose text is not an http(s) URL.

## Model

| member | source | states |
|---|---|---|
| Assemble.ConcatWithSourceMap | index.js:55-86 | The source-map concatenation loop. It fails exactly when some input cannot be resolved or read, with that input's error. On success, the map is `Generated(output, MappingsOf(segs))` for the resolved inputs, and the text is every line followed by "\n", then the inline map. |
| Assemble.ScriptWithMap | index.js:55-86 | The specification of the source-map path: the resolved inputs' lines, each followed by "\n", then the inline map of their mappings, or the first input's failure. ConcatWithSourceMap is proved to compute it. |
| Assemble.WriteLines | index.js:63-80 | The inner line loop adds one mapping per line, from original line `i` to generated line `offset + i` at column 0. It writes `line + "\n"` for every line, in order, and counts the lines. |
| Assemble.ResolveInputs | index.js:59-66 | A successful resolution gives one segment per input. |
| Assemble.PrefixFailure | index.js:59-83 | Once an input fails, the later inputs do not change the outcome: the first failure is the result. |
| Assemble.ResolvedSegment | index.js:61-66 | On success, every input was a path to an existing file. Its segment has source `Path.relative(resolveDir, input)` and holds the file's decoded lines. |
| Assemble.ResolveInput | index.js:61-66 | One input's segment: its path relative to the output directory and its decoded lines, a Buffer failing in `Path.relative`, or the read's failure. ResolvedSegment states it. |
| Assemble.ResolveStep | index.js:59-83 | Resolving one more input extends the segment list, or stops at that input's failure. |
| Assemble.ResolvedLinesNoBreaks | index.js:63-66 | No line the reader yields contains a line break. |
| Assemble.ScriptOutputLines | index.js:79-86 | Read back as lines, the script text gives the input lines in order, then the map comment as the last line. The comment's base64 payload decodes to the rendered map. |
| Assemble.InlineMapDecodes | index.js:116-118 | `inlineMap` starts with the `sourceMappingURL` data-URI head. What follows decodes as base64 to exactly `Buffer.from(map.toString())`. The comment is non-empty and has no line break. |
| Assemble.InlineMap | index.js:116-118 | `inlineMap`: the data-URI head followed by the base64 encoding of the rendered map. Its meaning is stated by InlineMapDecodes. |
| Assemble.PrefixNoBreaks | index.js:117 | The data-URI head holds no line break. |
| Assemble.EncodedNoBreaks | index.js:117 | A base64 encoding holds no line break. |
| Assemble.ReadAll | index.js:88-91 | A successful read gives one buffer per input. |
| Assemble.ReadAllSpec | index.js:88-91 | `Promise.all` succeeds iff every input succeeds (a Buffer as is, a path read from disk). Buffer `k` is input `k`'s bytes. A failure is the failure of some input. |
| Assemble.Chunk | index.js:89-90 | One input's bytes: a Buffer as it is, a path read from disk. ReadAllSpec and PlainConcatenation state it. |
| Assemble.PlainConcatenation | index.js:88-92 | In the plain concatenation, input `k`'s bytes (the Buffer itself, or the file's contents) sit unchanged at the offset given by the total length of the inputs before it. |
| Assemble.ConcatPlain | index.js:88-92 | `Buffer.concat` of the chunks read in input order, or a failure. PlainConcatenation states where each input lands. |
| Assemble.ImportsSpec | index.js:101-108 | The style entry succeeds iff every input gives an `@import`. Statement `k` is input `k`'s. A failure is that of the first input that fails. |
| Assemble.ImportsOk | index.js:101-108 | The success half of ImportsSpec: every input gives a statement, and statement `k` is input `k`'s. |
| Assemble.ImportsFirstError | index.js:101-108 | The failure half of ImportsSpec: the error is that of the first input without a statement. |
| Assemble.ImportOf | index.js:102-106 | The statement for one input: a URL verbatim, a path relative to the output directory, a Buffer only when its text is a URL. ImportTarget and ImportOfBuffer state it. |
| Assemble.Imports | index.js:101-107 | The statements in input order, stopping at the first input that throws. ImportsSpec states it. |
| Assemble.CssEntry | index.js:101-108 | The statements joined with "\n". CssEntryLines states how it reads back. |
| Assemble.ImportTarget | index.js:102-106 | An http(s) URL is imported verbatim. Any other path is imported through a relative target that resolves, from the output's directory, back to the input's absolute path. |
| Assemble.ImportOfBuffer | index.js:101-106 | A Buffer input is accepted exactly when its text is an http(s) URL. Otherwise `Path.relative` rejects it. |
| Assemble.JoinIsUnlines | index.js:108 | Joining with "\n" is every statement but the last followed by "\n", then the last. |
| Assemble.LinesOfJoin | index.js:108 | Break-free statements joined with "\n" read back as the same statements, when the last is not empty. |
| Assemble.ImportsNonEmpty | index.js:101-106 | Every statement of the style entry is non-empty and starts with "@". |
| Assemble.CssEntryLines | index.js:101-108 | Read back as lines, the style entry gives exactly the `@import` statements, in input order. |
| SourceMap.SourceMapGenerator.constructor | index.js:57 | A new generator records its file and has no mappings. |
| SourceMap.SourceMapGenerator.AddMapping | index.js:68-78 | `addMapping` appends the mapping and keeps the earlier ones. |
| SourceMap.PassThrough.constructor | index.js:56 | A new stream has nothing written. |
| SourceMap.PassThrough.Write | index.js:79 | `write` appends the chunk to what the stream holds. |
| SourceMap.FileMappings | index.js:67-78 | An input of `n` lines contributes exactly `n` mappings. |
| SourceMap.AppendSegment | index.js:59-83 | One more input adds its mappings, offset by the lines before it, and its lines to the text. The offset grows by its line count. |
| SourceMap.TextIsUnlines | index.js:79 | The concatenated text is every line of every input, each followed by "\n". |
| SourceMap.MappingsContiguous | index.js:58-83 | There are as many mappings as output lines. Mapping `g` targets generated line `g + 1`, column 0, from column 0. |
| SourceMap.MappingsIncreasing | index.js:58-83 | Generated lines strictly increase along the mappings. |
| SourceMap.MappingAt | index.js:67-82 | Line `i` of input `k` is output line `offset + i`. Its mapping points from there to line `i + 1` of that input's source. |
| SourceMap.MappingResolves | index.js:67-80 | Every mapping points to an input with that source whose original line is the very text at the generated line. |
| SourceMap.OutputLines | index.js:79-84 | The written text followed by a break-free trailer reads back as the input lines, then the trailer. |
| SourceMap.AllLinesNoBreaks | index.js:63-66 | The concatenated lines contain no line break. |
| SourceMap.MappingsOf | index.js:58-83 | The mappings the generator holds after the loop. MappingsContiguous, MappingsIncreasing, MappingAt and MappingResolves state them. |
| SourceMap.TextOf | index.js:79 | The text written to the stream after the loop. TextIsUnlines and OutputLines state it. |
| Readline.BreakAt | index.js:63-66 | The first line ends at the first "\n" or "\r", or at the end of the input. |
| Readline.Lines | index.js:63-66 | The lines `readline` yields contain no break. |
| Readline.LinesCons | index.js:63-66 | A break-free line followed by "\n" is yielded as that line, and reading goes on after it. |
| Readline.LinesOfUnlines | index.js:63-79 | Lines written with a "\n" after each, plus a break-free tail, read back as those lines plus the tail if it is not empty. |
| Readline.UnlinesOfLines | index.js:63-79 | For a text without "\r", rewriting its lines each with "\n" gives the text back, with a final "\n" added if it lacked one. |
| Readline.SplitAtNewline | index.js:63-66 | In a text without "\r", the first break is a "\n". The lines are the text before it, then the lines after it. |
| Readline.NoBreaksAppend | index.js:117 | Two break-free strings concatenate to a break-free string. |
| NodePath.SplitSlash | index.js:61 | Splitting a path on "/" yields at least one piece, and no piece holds a "/". |
| NodePath.Normalize | index.js:61 | Resolving segments against a resolved directory gives a resolved path (no "", "." or ".." segment). |
| NodePath.Resolve | index.js:61 | `path.resolve` gives a resolved path. |
| NodePath.CommonPrefix | index.js:61 | The shared leading segments of two paths: they agree up to there and differ right after. |
| NodePath.Ups | index.js:61 | `n` ".." segments. |
| NodePath.NormalizeDescends | index.js:61 | Resolving resolved segments just appends them. |
| NodePath.NormalizeUps | index.js:61 | `n` ".." segments climb `n` directories, then the rest descends. |
| NodePath.SplitJoin | index.js:61 | Splitting a slash-joined list of slash-free names gives the list back. |
| NodePath.RelativeSegmentsNormalize | index.js:61 | The relative segments from `from` to `to`, resolved from `from`, lead to `to`. |
| NodePath.RelativeSegmentsNoSlash | index.js:61 | The relative segments contain no "/". |
| NodePath.RelativeResolves | index.js:61 | `path.relative(from, to)`, resolved again from `from`, is `path.resolve(to)`. |
| NodePath.RelativeEmpty | index.js:105 | The relative path is empty exactly when the target is the directory itself. |
| NodePath.Relative | index.js:61-105 | `path.relative(from, to)`: ".." for each directory to leave, then the rest of `to`, joined by "/". RelativeResolves and RelativeEmpty state it. |
| NodePath.Basename | index.js:31 | `path.basename`: the last non-empty piece of the path. |
| NodePath.Extname | index.js:16 | `path.extname` of the base name. ExtIsJs states it. |
| NodePath.LastDot | index.js:16 | The position of the last "." of a name, or none when the name has no ".". |
| NodePath.ExtIsJs | index.js:16 | `extname` is ".js" exactly when the name ends in ".js" after at least one other character. |
| NodePathExamples.CommonPrefixShared | index.js:105 | Sharing a directory prefix adds its length to the common prefix. |
| NodePathExamples.SampleRelative | index.js:105 | From `<d>/output/css` to `<d>/css/sample1.css`, the relative segments are "..", "..", "css", "sample1.css", the relative path the repository's style test expects for its sample input. |
| NodePathExamples.SampleText | index.js:105 | Those segments join to "../../css/sample1.css". |
| Base64.CharOf | index.js:117 | An alphabet letter is never the padding character. |
| Base64.IndexOfCharOf | index.js:117 | Each alphabet letter is found back at its own position. |
| Base64.EncodeLength | index.js:117 | The encoding has four characters per started group of three bytes. |
| Base64.EncodeAlphabet | index.js:117 | The encoding uses only alphabet letters and "=". |
| Base64.DecodeEncode | index.js:117 | Decoding the encoding gives back the bytes. |
| Base64.Encode | index.js:117 | `buf.toString('base64')`. EncodeLength, EncodeAlphabet and DecodeEncode state it. |
| Buffers.ConcatAt | index.js:92 | `Buffer.concat` holds each buffer unchanged at the total length of those before it. |
| Buffers.ConcatLength | index.js:92 | The concatenation's length is the sum of the lengths. |
| Buffers.Concat | index.js:92 | `Buffer.concat`. ConcatAt and ConcatLength state it. |
| Strings.IndexOf | index.js:197 | A position found is an occurrence. |
| Strings.IndexOfFirst | index.js:197 | The position found is the first occurrence, and none is found iff the pattern does not occur (`includes`). |
| Strings.ReplaceFirstSpec | index.js:198 | `replace` with a string pattern rewrites only the first occurrence. Without an occurrence, the string is unchanged. |
| Strings.ReplaceAtStart | index.js:198 | A pattern at the start is replaced there. |
| Strings.ReplaceFirst | index.js:198 | `str.replace(lb, '')` with a string pattern. ReplaceFirstSpec and ReplaceAtStart state it. |
| Strings.Contains | index.js:197 | `str.includes(lb)`. IndexOfFirst states that `IndexOf` finds an occurrence exactly when it holds. |
| Strings.IsHttpUrl | index.js:102 | The test `/^https?:\/\//`, also the filter at index.js:140. HttpResolveRules and ImportOfBuffer state how it steers resolution and imports. |
| Strings.Join | index.js:108 | `statements.join('\n')`. JoinIsUnlines and LinesOfJoin state it. |
| Versions.DigitChar | index.js:201 | A digit's character is a digit and reads back as it. |
| Versions.DigitRun | index.js:198 | The longest run of leading digits. |
| Versions.Digits | index.js:198 | One digit per character. |
| Versions.StripZeros | index.js:198 | Trailing zero digits are removed and nothing else. |
| Versions.SkipSpaces | index.js:198 | Leading white space is removed and nothing else. |
| Versions.ParseLeadingSpace | index.js:198 | `parseFloat` ignores leading white space. |
| Versions.NatToString | index.js:201 | An integer's text is a non-empty run of digits with no leading zero (only 0 is written "0"). |
| Versions.DigitsToString | index.js:201 | One character per digit, all digits. |
| Versions.ValueOfNatToString | index.js:198-201 | Reading an integer's text gives the integer. |
| Versions.DigitsOfString | index.js:198-201 | Reading digits' text gives the digits. |
| Versions.DigitRunAll | index.js:198 | A digit run stops exactly at the first non-digit. |
| Versions.ParseToString | index.js:198-201 | `parseFloat` of a number's `${}` text gives the number back. |
| Versions.ParseFloat | index.js:198 | `parseFloat`: leading white space skipped, then the longest decimal prefix, or none (NaN). ParseToString and ParseLeadingSpace state it. |
| Versions.ToString | index.js:201 | `${minUa}`: the integer part, then "." and the fraction digits when there are any. ParseToString states it is read back by `parseFloat`. |
| Versions.ParseCanonical | index.js:198 | A number read has no trailing zero in its fraction, so each number has one representation. |
| Versions.ParseWhole | index.js:198-201 | The same, for a whole number. |
| Versions.ParseFraction | index.js:198-201 | The same, for a number with a fraction. |
| Versions.FracLeTotal | index.js:199 | Any two fractions compare. |
| Versions.FracLeTrans | index.js:199 | The fraction order is transitive. |
| Versions.FracLeAntisym | index.js:199 | The fraction order is antisymmetric. |
| Versions.LeTotalOrder | index.js:199 | Numeric order on versions is total, transitive and antisymmetric, so `sort((a, b) => a - b).shift()` is well defined. |
| Versions.Le | index.js:199 | The order `(a, b) => a - b` sorts by. LeValue ties it to the numbers. |
| Versions.FracValBounds | index.js:199 | A fraction's value lies in [0, 1), and is above 0 when its last digit is not 0. |
| Versions.FracLeValue | index.js:199 | On fractions without trailing zeros, the digit order is the order of their real values. |
| Versions.LeValue | index.js:199 | `Le` holds exactly when the first version's number is at most the second's, which is what `a - b <= 0` compares. |
| Versions.TruthyValue | index.js:200 | A version is truthy (`if (minUa)`) exactly when its number is not 0. |
| Versions.Min | index.js:199 | The first element after an ascending sort: absent iff the list is empty, otherwise a member no larger than any. |
| UserAgent.ToLower | index.js:195 | Lower-casing keeps the length. |
| UserAgent.PresentSound | index.js:197-198 | A version is kept iff some entry of the family parsed to it. |
| UserAgent.Present | index.js:197-198 | The versions kept, in entry order. PresentSound states it. |
| UserAgent.FamilyVersions | index.js:197-198 | `browsers.filter(includes).map(parseFloat)` for one family. PresentSound, EntryOfFamily and PresentAll state it. |
| UserAgent.MinVersion | index.js:196-199 | `sort((a, b) => a - b).shift()` on a family's versions. MinVersionIsSmallest and MinIsNumericallySmallest state it. |
| UserAgent.Minimums | index.js:194-199 | The smallest version of each family, in the order they are tried. UserAgentChoice states it. |
| UserAgent.Picked | index.js:200 | `if (minUa)`: a smallest version exists and is not 0. TruthyValue and MinPicked state it. |
| UserAgent.Entries | index.js:197-198 | One slot per browserslist entry. |
| UserAgent.BrowsersToUserAgent | index.js:193-204 | The loop over the families with its early return computes `UserAgentOf`. |
| UserAgent.UserAgentOf | index.js:193-204 | The specification of `browsersToUserAgent`: the first picked family's User-Agent, or none. UserAgentChoice states it. |
| UserAgent.UserAgentFrom | index.js:194-203 | The family loop from family `i` on, with its early return. UserAgentChoice states it. |
| UserAgent.UserAgentFor | index.js:201 | The text `Mozilla/5.0 (X11; Linux x86_64) Gecko/20100101 <Family>/<min>.0`. |
| UserAgent.EntryVersion | index.js:197-198 | An entry's version for a family: it must contain the family's name, and what remains once that is removed must parse. EntryOfFamily states it. |
| UserAgent.UserAgentChoice | index.js:194-203 | The result is absent iff no family is picked. Otherwise it is built from the first picked family and that family's smallest version. |
| UserAgent.MinIsLe | index.js:199 | The minimum is no larger than any version listed. |
| UserAgent.MinVersionIsSmallest | index.js:196-199 | The version used is one an entry gave, and no entry of the family gave a smaller one. |
| UserAgent.EntryCanonical | index.js:197-198 | Every version an entry contributes is canonical. |
| UserAgent.MinIsNumericallySmallest | index.js:196-199 | The version used is numerically no larger than any version the family's entries give. |
| UserAgent.EntryOfFamily | index.js:197-198 | The entry "`lb` `v`" contributes exactly `v` to family `lb`. |
| UserAgent.PresentAll | index.js:197-198 | When every entry parses, all of them are kept, in order. |
| UserAgent.MinPicked | index.js:199-200 | Non-zero versions have a truthy minimum. |
| UserAgentExamples.LowerFirefox | index.js:194-195 | Firefox is tried first, matched as "firefox". |
| UserAgentExamples.MinimumsAt | index.js:196-199 | Family `f`'s candidate is the minimum of its lower-cased entries. |
| UserAgentExamples.FirstPicked | index.js:200-201 | A picked Firefox minimum decides the User-Agent. |
| UserAgentExamples.FirefoxVersions | index.js:196-198 | Entries "firefox <v>" yield their versions, in order. |
| UserAgentExamples.FirefoxMinimum | index.js:196-199 | Firefox's candidate is the smallest of those versions. |
| UserAgentExamples.LowestFirefox | index.js:193-204 | With Firefox entries only, the User-Agent is the Firefox one with their smallest version. |
| UserAgentExamples.Firefox61 | test/js.js:91 | The query result "firefox 61" gives a User-Agent ending in "Firefox/61.0". |
| UserAgentExamples.FirefoxLowerOfTwo | index.js:196-201 | Of "firefox 62" and "firefox 61", version 61 is used. |
| Options.ScriptModeIff | index.js:16 | Script mode iff the output's name ends in ".js" after at least one other character. |
| Options.ModeOf | index.js:16 | Script mode iff `extname(output) == ".js"`. ScriptModeIff states it. |
| Options.SourceMapOf | index.js:19 | `options.sourceMap ?? false`. Defaults and ExplicitValues state it. |
| Options.QueryOf | index.js:21 | `options.browsers ?? "defaults"`. Defaults and ExplicitValues state it. |
| Options.MinifyOf | index.js:36 | `options.minify !== false`. Defaults and ExplicitValues state it. |
| Options.BundleOf | index.js:51-99 | `Boolean(options.bundle)` in script mode, `true` in style mode. Defaults and ExplicitValues state it. |
| Options.Defaults | index.js:19-51 | With no options: no source map, the "defaults" query, minification, and bundling only in style mode. |
| Options.ExplicitValues | index.js:19-99 | A given `sourceMap`, `browsers`, `minify` is used as given. `bundle` counts in script mode. Style mode always bundles. |
| Plugins.CopyDecision | index.js:124-131 | `copy` leaves exactly ".js" and ".css" files to esbuild. It loads any other file with the "copy" loader and its bytes, or fails as the read does. |
| Plugins.CopyOnLoad | index.js:124-131 | The `onLoad` callback of `copy`. CopyDecision states it. |
| Plugins.HttpResolveRules | index.js:140-151 | An http(s) URL resolves to itself. Everything `http` resolves goes to the "http-url" namespace. It leaves alone exactly non-URL paths outside that namespace. |
| Plugins.HttpResolve | index.js:140-151 | The two `onResolve` callbacks of `http`, in registration order. HttpResolveRules states them. |
| Plugins.HttpLoadOrder | index.js:159-187 | Checked in this order: status (statusText, status), then a missing content-type (with the path), then an unknown MIME type (with the type). Only a response passing all three loads, with its body unchanged. The callback never defers. |
| Plugins.HttpOnLoadFetches | index.js:152-188 | The callback answers from what `fetch` returns for the path with the derived User-Agent header. It loads exactly when that response is ok, typed and of a known MIME type, and with that response's bytes. |
| Plugins.HttpOnLoad | index.js:152-188 | The `onLoad` callback of `http`: the fetch with the User-Agent, then the classification of the response. HttpOnLoadFetches states it. |
| Plugins.HttpLoaderChoice | index.js:185 | The loader is "js" or "css" exactly for those MIME extensions, and "copy" otherwise. |
| Plugins.HttpLoad | index.js:159-187 | The `onLoad` classification of a response. HttpLoadOrder states it. |
| Plugins.LoaderFor | index.js:185 | `initialOptions.loader[key] ?? "copy"`. HttpLoaderChoice states it. |
| Plugins.RequestCarriesUserAgent | index.js:154-158 | The request goes to the path with the derived User-Agent header, or "undefined" when there is none. |
| Plugins.RequestFor | index.js:154-158 | The request `fetch` is given. RequestCarriesUserAgent states it. |
| Pipeline.OutputDir | index.js:18 | The output's directory is a resolved path. |
| Pipeline.ModeSettings | index.js:46-100 | Script mode: the "js" stdin loader, the IIFE format, `Boolean(options.bundle)`, and the browserslist plugin alone. Style mode: the "css" loader, always bundling, and `copy`, `http` (with the User-Agent) and `lightning`, in that order. |
| Pipeline.PluginsFor | index.js:46-100 | The plugin list of each mode. ModeSettings states it. |
| Pipeline.CommonSettings | index.js:18-44 | The mode-independent `esOpts` fields: source map, minify, outfile, sourcefile, resolveDir, and the constant flags and loader table. |
| Pipeline.EntryDecides | index.js:54-108 | The call fails before `build` exactly when building the entry fails, with its error. Otherwise `stdin.contents` is the entry. |
| Pipeline.EntryByMode | index.js:54-108 | The entry by mode: the concatenated bytes, the lines followed by the inline map, or the "\n"-joined `@import` statements. |
| Pipeline.Prepare | index.js:15-109 | The function up to `build` computes the specified `esOpts`, or the failure. |
| Pipeline.BuildOptionsOf | index.js:15-109 | The specification of `esOpts`, or the failure before `build`. ModeSettings, CommonSettings and EntryDecides state it. |
| Pipeline.EntryContents | index.js:54-108 | The entry document by mode. EntryByMode states it. |
| Pipeline.Entry | index.js:54-108 | Building the entry by mode computes the specified contents. |

## Left out

- The call to esbuild's `build` and the handling of its errors and warnings (index.js:110-113): esbuild is not part of this model. The model stops at the `esOpts` passed to it.
- The `lightning` plugin (index.js:206-223) and `esbuild-plugin-browserslist`: the transform is in lightningcss and esbuild. The model only records that each plugin is installed, and with which browser list.
- browserslist's query evaluation, `browserslistToTargets`, `mime.getExtension`, `fetch`, `new URL` and the `source-map` library's JSON rendering: each is a function parameter.
- Plugins.HttpOnLoad: `fetch` is a total function of the request, so a rejected `fetch(...)` (index.js:154) and a rejected `response.arrayBuffer()` (index.js:186) are not modelled. The callback always answers with a load result.
- Pipeline.BuildOptionsOf: the query evaluation is a total function, so browserslist throwing on an unknown query (index.js:21, before any input is read) is not modelled.
- `Promise.all` concurrency: the first failure in input order is taken as the rejection. The real rejection is whichever read fails first in time.
- Stream life cycle (`inputStream.close()`, `pt.end()`, `buffer(pt)`): the collected text is what was written. Its UTF-8 encoding into bytes is not modelled, so the entry is `Text`.
- Versions.ParseFloat: only unsigned decimals are read. Only ASCII white space is skipped (Versions.IsSpace); JavaScript also skips U+00A0, U+FEFF, U+2028, U+2029 and the other Unicode space separators. Signs, exponents, "Infinity" and the binary rounding of doubles are not modelled. A NaN entry is dropped instead of taking part in the sort, where JavaScript's order for NaN is implementation-dependent.
- Pipeline.OutputDir: `Path.dirname` is modelled as the parent of the resolved output path. It differs textually from `dirname` (which keeps a relative path), and for outputs ending in "." or "..".
- Options: only boolean `sourceMap`, `minify` and `bundle` and a string `browsers` are modelled. Other JavaScript values and an array query are not.
- Assemble.CssEntryLines requires that no import statement contains a line break. With a break, the statement list and the lines differ.
- UserAgent.UserAgentFor: index.js:201 writes `Gecko/20100101 <Family>/<min>.0` for every family, Safari and Chrome included, and the model does the same.
- UserAgent.UserAgentFrom: a family whose minimum is 0 is skipped (`if (minUa)`), as in index.js:200.
- Plugins.RequestFor: when no family matches, the header carries the string "undefined".
