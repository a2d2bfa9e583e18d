/** The entry document index.js hands to esbuild through `stdin.contents`:
    in script mode the concatenated inputs (with an inline source map when one
    is requested), in style mode one `@import` per input. */
module Assemble {

  import opened Wrappers
  import opened Strings
  import opened Buffers
  import opened NodePath
  import opened Readline
  import Base64
  import opened Host
  import opened SourceMap

  /** An element of the `inputs` array: a path (or URL) string, or a Buffer. */
  datatype Input = Path(path: string) | Buf(bytes: Buffer)

  /** The script text and the map whose encoding ends it. */
  datatype Concatenated = Concatenated(text: string, sourceMap: Generated)

  /** The head of the comment: a `sourceMappingURL` data URI with the JSON
      media type, UTF-8 charset and base64 encoding. */
  const SourceMappingPrefix: string :=
    "//# " + "sourceMappingURL=" + "data:" + "application/json;" + "charset=utf-8;" + "base64,"

  /** `inlineMap(map)`: the comment that carries the whole map as a base64 data
      URI. `render` is `Buffer.from(map.toString())`, the map's JSON text as
      UTF-8 bytes. */
  function InlineMap(sourceMap: Generated, render: Generated -> Buffer): string {
    SourceMappingPrefix + Base64.Encode(render(sourceMap))
  }

  lemma PrefixNoBreaks()
    ensures NoBreaks(SourceMappingPrefix)
  {
    assert NoBreaks("//# ") && NoBreaks("sourceMappingURL=") && NoBreaks("data:");
    assert NoBreaks("application/json;") && NoBreaks("charset=utf-8;") && NoBreaks("base64,");
    NoBreaksAppend("//# ", "sourceMappingURL=");
    NoBreaksAppend("//# " + "sourceMappingURL=", "data:");
    NoBreaksAppend("//# " + "sourceMappingURL=" + "data:", "application/json;");
    NoBreaksAppend("//# " + "sourceMappingURL=" + "data:" + "application/json;", "charset=utf-8;");
    NoBreaksAppend("//# " + "sourceMappingURL=" + "data:" + "application/json;" + "charset=utf-8;", "base64,");
  }

  /** Base64 text never holds a line break. */
  lemma EncodedNoBreaks(b: Buffer)
    ensures NoBreaks(Base64.Encode(b))
  {
    Base64.EncodeAlphabet(b);
  }

  /** The comment is one non-empty line that starts with the data-URI prefix,
      and what follows the prefix decodes back to the map text. */
  lemma InlineMapDecodes(sourceMap: Generated, render: Generated -> Buffer)
    ensures IsPrefix(SourceMappingPrefix, InlineMap(sourceMap, render))
    ensures Base64.Decode(InlineMap(sourceMap, render)[|SourceMappingPrefix|..]) == Some(render(sourceMap))
    ensures InlineMap(sourceMap, render) != [] && NoBreaks(InlineMap(sourceMap, render))
  {
    var enc := Base64.Encode(render(sourceMap));
    var s := InlineMap(sourceMap, render);
    assert s == SourceMappingPrefix + enc;
    assert s[..|SourceMappingPrefix|] == SourceMappingPrefix;
    assert s[|SourceMappingPrefix|..] == enc;
    Base64.DecodeEncode(render(sourceMap));
    PrefixNoBreaks();
    EncodedNoBreaks(render(sourceMap));
    NoBreaksAppend(SourceMappingPrefix, enc);
  }

  // ---------------------------------------------------------------------
  // Script mode with a source map (index.js:55-86)
  // ---------------------------------------------------------------------

  /** What one input contributes: its path relative to the output directory
      and its lines. A Buffer has no path, so `Path.relative` throws on it. */
  function ResolveInput(input: Input, fs: FileSystem, decode: Buffer -> string, resolveDir: seq<string>)
    : (r: Result<Segment, Failure>)
    requires IsNormal(resolveDir)
  {
    match input
    case Buf(_) => Err(InvalidArgType)
    case Path(p) =>
      match ReadFile(fs, p)
      case Err(e) => Err(e)
      case Ok(bytes) => Ok(Segment(Relative(fs.cwd, resolveDir, p), Lines(decode(bytes))))
  }

  /** The inputs read in order; the first one that fails aborts the run. */
  function ResolveInputs(inputs: seq<Input>, fs: FileSystem, decode: Buffer -> string, resolveDir: seq<string>)
    : (r: Result<seq<Segment>, Failure>)
    requires IsNormal(resolveDir)
    ensures r.Ok? ==> |r.value| == |inputs|
  {
    if inputs == [] then Ok([])
    else
      match ResolveInputs(inputs[..|inputs| - 1], fs, decode, resolveDir)
      case Err(e) => Err(e)
      case Ok(segs) =>
        match ResolveInput(inputs[|inputs| - 1], fs, decode, resolveDir)
        case Err(e) => Err(e)
        case Ok(seg) => Ok(segs + [seg])
  }

  /** A failure on a prefix of the inputs is the failure of the whole run. */
  lemma {:induction false} PrefixFailure(inputs: seq<Input>, n: nat, fs: FileSystem, decode: Buffer -> string, resolveDir: seq<string>)
    requires IsNormal(resolveDir) && n <= |inputs|
    requires ResolveInputs(inputs[..n], fs, decode, resolveDir).Err?
    ensures ResolveInputs(inputs, fs, decode, resolveDir) == ResolveInputs(inputs[..n], fs, decode, resolveDir)
    decreases |inputs| - n
  {
    if n < |inputs| {
      assert inputs[..|inputs| - 1][..n] == inputs[..n];
      PrefixFailure(inputs[..|inputs| - 1], n, fs, decode, resolveDir);
    } else {
      assert inputs[..n] == inputs;
    }
  }

  /** Input `k` of a successful run contributes its relative path and the lines
      `readline` reads from its file. */
  lemma {:induction false} ResolvedSegment(inputs: seq<Input>, k: nat, fs: FileSystem, decode: Buffer -> string, resolveDir: seq<string>)
    requires IsNormal(resolveDir) && k < |inputs|
    requires ResolveInputs(inputs, fs, decode, resolveDir).Ok?
    ensures inputs[k].Path? && Resolve(fs.cwd, inputs[k].path) in fs.files
    ensures ResolveInputs(inputs, fs, decode, resolveDir).value[k]
      == Segment(Relative(fs.cwd, resolveDir, inputs[k].path), Lines(decode(fs.files[Resolve(fs.cwd, inputs[k].path)])))
  {
    var init := inputs[..|inputs| - 1];
    if k < |inputs| - 1 {
      ResolvedSegment(init, k, fs, decode, resolveDir);
    }
  }

  lemma ResolveStep(inputs: seq<Input>, k: nat, segs: seq<Segment>, fs: FileSystem, decode: Buffer -> string, resolveDir: seq<string>)
    requires IsNormal(resolveDir) && k < |inputs|
    requires ResolveInputs(inputs[..k], fs, decode, resolveDir) == Ok(segs)
    ensures ResolveInputs(inputs[..k + 1], fs, decode, resolveDir) ==
      match ResolveInput(inputs[k], fs, decode, resolveDir)
      case Err(e) => Err(e)
      case Ok(seg) => Ok(segs + [seg])
  {
    assert inputs[..k + 1][..k] == inputs[..k];
  }

  /** The outcome of the source-mapped concatenation: the text written for
      all inputs followed by the inline comment of the map of all their lines. */
  function ScriptWithMap(inputs: seq<Input>, output: string, resolveDir: seq<string>,
                         fs: FileSystem, decode: Buffer -> string, render: Generated -> Buffer)
    : Result<Concatenated, Failure>
    requires IsNormal(resolveDir)
  {
    match ResolveInputs(inputs, fs, decode, resolveDir)
    case Err(e) => Err(e)
    case Ok(segs) =>
      var sourceMap := Generated(output, MappingsOf(segs));
      Ok(Concatenated(TextOf(segs) + InlineMap(sourceMap, render), sourceMap))
  }

  /** index.js:55-86. Every line of every input is written to the stream with
      "\n" after it, and a mapping from generated line `offset + i` to line `i`
      of the input is added, `offset` being the number of lines written before;
      the inline map comment is written last. */
  method ConcatWithSourceMap(inputs: seq<Input>, output: string, resolveDir: seq<string>,
                             fs: FileSystem, decode: Buffer -> string, render: Generated -> Buffer)
    returns (r: Result<Concatenated, Failure>)
    requires IsNormal(resolveDir)
    ensures r.Err? <==> ResolveInputs(inputs, fs, decode, resolveDir).Err?
    ensures r.Err? ==> r.error == ResolveInputs(inputs, fs, decode, resolveDir).error
    ensures r.Ok? ==>
      var segs := ResolveInputs(inputs, fs, decode, resolveDir).value;
      && r.value.sourceMap == Generated(output, MappingsOf(segs))
      && r.value.text == TextOf(segs) + InlineMap(r.value.sourceMap, render)
  {
    var pt := new PassThrough();
    var sourceMapGen := new SourceMapGenerator(output);
    var offset := 0;
    ghost var segs: seq<Segment> := [];
    for k := 0 to |inputs|
      invariant ResolveInputs(inputs[..k], fs, decode, resolveDir) == Ok(segs)
      invariant sourceMapGen.mappings == MappingsOf(segs)
      invariant pt.written == TextOf(segs)
      invariant offset == TotalLines(segs)
    {
      ResolveStep(inputs, k, segs, fs, decode, resolveDir);
      var resolved := ResolveInput(inputs[k], fs, decode, resolveDir);
      if resolved.Err? {
        PrefixFailure(inputs, k + 1, fs, decode, resolveDir);
        return Err(resolved.error);
      }
      var seg := resolved.value;
      var count := WriteLines(sourceMapGen, pt, seg.source, seg.lines, offset);
      AppendSegment(segs, seg);
      segs := segs + [seg];
      offset := offset + count;
    }
    assert inputs[..|inputs|] == inputs;
    var sourceMap := sourceMapGen.Current();
    pt.Write(InlineMap(sourceMap, render));
    return Ok(Concatenated(pt.written, sourceMap));
  }

  /** index.js:63-80, the `readline` loop over one input: line `i` (from 1) is
      mapped from generated line `offset + i` and written with "\n" after it. */
  method WriteLines(sourceMapGen: SourceMapGenerator, pt: PassThrough, source: string, lines: seq<string>, offset: nat)
    returns (count: nat)
    modifies sourceMapGen, pt
    ensures count == |lines|
    ensures sourceMapGen.mappings == old(sourceMapGen.mappings) + FileMappings(source, |lines|, offset)
    ensures pt.written == old(pt.written) + Unlines(lines)
  {
    var i := 0;
    while i < |lines|
      invariant 0 <= i <= |lines|
      invariant sourceMapGen.mappings == old(sourceMapGen.mappings) + FileMappings(source, i, offset)
      invariant pt.written == old(pt.written) + Unlines(lines[..i])
    {
      i := i + 1;
      sourceMapGen.AddMapping(Mapping(source, i, 0, offset + i, 0));
      pt.Write(lines[i - 1] + "\n");
      FileMappingsStep(source, i - 1, offset);
      UnlinesStep(lines, i - 1);
    }
    assert lines[..i] == lines;
    count := i;
  }

  /** After a successful run, every line the stream holds has no break in it:
      each came out of `readline`. */
  lemma ResolvedLinesNoBreaks(inputs: seq<Input>, fs: FileSystem, decode: Buffer -> string, resolveDir: seq<string>)
    requires IsNormal(resolveDir)
    requires ResolveInputs(inputs, fs, decode, resolveDir).Ok?
    ensures var segs := ResolveInputs(inputs, fs, decode, resolveDir).value;
      forall k :: 0 <= k < |segs| ==> forall j :: 0 <= j < |segs[k].lines| ==> NoBreaks(segs[k].lines[j])
  {
    var segs := ResolveInputs(inputs, fs, decode, resolveDir).value;
    forall k | 0 <= k < |segs| ensures forall j :: 0 <= j < |segs[k].lines| ==> NoBreaks(segs[k].lines[j]) {
      ResolvedSegment(inputs, k, fs, decode, resolveDir);
    }
  }

  /** Reading the source-mapped script back line by line gives every input
      line in input order, then the inline map comment, whose payload decodes
      to the rendered map. */
  lemma ScriptOutputLines(inputs: seq<Input>, output: string, fs: FileSystem, decode: Buffer -> string,
                          render: Generated -> Buffer, resolveDir: seq<string>)
    requires IsNormal(resolveDir)
    requires ResolveInputs(inputs, fs, decode, resolveDir).Ok?
    ensures
      var segs := ResolveInputs(inputs, fs, decode, resolveDir).value;
      var trailer := InlineMap(Generated(output, MappingsOf(segs)), render);
      && Lines(TextOf(segs) + trailer) == AllLines(segs) + [trailer]
      && Base64.Decode(trailer[|SourceMappingPrefix|..]) == Some(render(Generated(output, MappingsOf(segs))))
  {
    var segs := ResolveInputs(inputs, fs, decode, resolveDir).value;
    var trailer := InlineMap(Generated(output, MappingsOf(segs)), render);
    InlineMapDecodes(Generated(output, MappingsOf(segs)), render);
    ResolvedLinesNoBreaks(inputs, fs, decode, resolveDir);
    OutputLines(segs, trailer);
  }

  // ---------------------------------------------------------------------
  // Script mode without a source map (index.js:88-92)
  // ---------------------------------------------------------------------

  /** What one input contributes to `Buffer.concat`: a Buffer as it is, a
      path the bytes `readFile` returns for it. */
  function Chunk(input: Input, fs: FileSystem): Result<Buffer, Failure> {
    match input
    case Buf(b) => Ok(b)
    case Path(p) => ReadFile(fs, p)
  }

  /** `Promise.all` over the chunks: all of them in input order, or a failure. */
  function ReadAll(inputs: seq<Input>, fs: FileSystem): (r: Result<seq<Buffer>, Failure>)
    ensures r.Ok? ==> |r.value| == |inputs|
  {
    if inputs == [] then Ok([])
    else
      match Chunk(inputs[0], fs)
      case Err(e) => Err(e)
      case Ok(b) =>
        match ReadAll(inputs[1..], fs)
        case Err(e) => Err(e)
        case Ok(rest) => Ok([b] + rest)
  }

  /** `Buffer.concat(await Promise.all(...))`. */
  function ConcatPlain(inputs: seq<Input>, fs: FileSystem): Result<Buffer, Failure> {
    match ReadAll(inputs, fs)
    case Err(e) => Err(e)
    case Ok(buffers) => Ok(Concat(buffers))
  }

  /** The chunks are read exactly when every input can be read, each one in
      its place; otherwise the failure is that of an input that cannot. */
  lemma {:induction false} ReadAllSpec(inputs: seq<Input>, fs: FileSystem)
    ensures ReadAll(inputs, fs).Ok? <==> forall k :: 0 <= k < |inputs| ==> Chunk(inputs[k], fs).Ok?
    ensures ReadAll(inputs, fs).Ok? ==>
      && |ReadAll(inputs, fs).value| == |inputs|
      && forall k :: 0 <= k < |inputs| ==> ReadAll(inputs, fs).value[k] == Chunk(inputs[k], fs).value
    ensures ReadAll(inputs, fs).Err? ==>
      exists k :: 0 <= k < |inputs| && Chunk(inputs[k], fs) == Err(ReadAll(inputs, fs).error)
  {
    if inputs != [] {
      ReadAllSpec(inputs[1..], fs);
      if Chunk(inputs[0], fs).Ok? && ReadAll(inputs[1..], fs).Err? {
        var k :| 0 <= k < |inputs[1..]| && Chunk(inputs[1..][k], fs) == Err(ReadAll(inputs[1..], fs).error);
        assert inputs[k + 1] == inputs[1..][k];
      }
      if ReadAll(inputs[1..], fs).Err? {
        var k :| 0 <= k < |inputs[1..]| && Chunk(inputs[1..][k], fs).Err?;
        assert inputs[k + 1] == inputs[1..][k];
      }
      if ReadAll(inputs, fs).Ok? {
        forall k | 0 <= k < |inputs| ensures ReadAll(inputs, fs).value[k] == Chunk(inputs[k], fs).value {
          if k > 0 { assert inputs[k] == inputs[1..][k - 1]; }
        }
      }
    }
  }

  /** Without a source map the entry is the inputs' bytes one after the other:
      input `k` occupies the bytes right after those of the inputs before it,
      a Buffer unchanged and a path with its file's bytes. */
  lemma PlainConcatenation(inputs: seq<Input>, fs: FileSystem, k: nat)
    requires ConcatPlain(inputs, fs).Ok? && k < |inputs|
    ensures
      var buffers := ReadAll(inputs, fs).value;
      var at := TotalLength(buffers[..k]);
      && (inputs[k].Buf? ==> buffers[k] == inputs[k].bytes)
      && (inputs[k].Path? ==> ReadFile(fs, inputs[k].path) == Ok(buffers[k]))
      && at + |buffers[k]| <= |ConcatPlain(inputs, fs).value| == TotalLength(buffers)
      && ConcatPlain(inputs, fs).value[at..at + |buffers[k]|] == buffers[k]
  {
    ReadAllSpec(inputs, fs);
    ConcatAt(ReadAll(inputs, fs).value, k);
  }

  // ---------------------------------------------------------------------
  // Style mode: the @import entry (index.js:101-108)
  // ---------------------------------------------------------------------

  function ImportStatement(target: string): string {
    "@import \"" + target + "\";"
  }

  /** The statement for one input. A Buffer is matched as its text (the regular
      expression converts it to a string); one that is not a URL reaches
      `Path.relative`, which throws. */
  function ImportOf(input: Input, cwd: seq<string>, resolveDir: seq<string>, decode: Buffer -> string)
    : Result<string, Failure>
    requires IsNormal(cwd) && IsNormal(resolveDir)
  {
    match input
    case Path(p) => Ok(ImportStatement(if IsHttpUrl(p) then p else Relative(cwd, resolveDir, p)))
    case Buf(b) => if IsHttpUrl(decode(b)) then Ok(ImportStatement(decode(b))) else Err(InvalidArgType)
  }

  /** `inputs.map(...)`: the statements in input order; the first input that
      throws aborts the map. */
  function Imports(inputs: seq<Input>, cwd: seq<string>, resolveDir: seq<string>, decode: Buffer -> string)
    : Result<seq<string>, Failure>
    requires IsNormal(cwd) && IsNormal(resolveDir)
  {
    if inputs == [] then Ok([])
    else
      match ImportOf(inputs[0], cwd, resolveDir, decode)
      case Err(e) => Err(e)
      case Ok(stmt) =>
        match Imports(inputs[1..], cwd, resolveDir, decode)
        case Err(e) => Err(e)
        case Ok(rest) => Ok([stmt] + rest)
  }

  /** `.join('\n')` of the statements: the style-mode entry document. */
  function CssEntry(inputs: seq<Input>, cwd: seq<string>, resolveDir: seq<string>, decode: Buffer -> string)
    : Result<string, Failure>
    requires IsNormal(cwd) && IsNormal(resolveDir)
  {
    match Imports(inputs, cwd, resolveDir, decode)
    case Err(e) => Err(e)
    case Ok(stmts) => Ok(Join(stmts, "\n"))
  }

  /** One statement per input, in input order, or the failure of the first
      input that has none. */
  lemma {:induction false} ImportsSpec(inputs: seq<Input>, cwd: seq<string>, resolveDir: seq<string>, decode: Buffer -> string)
    requires IsNormal(cwd) && IsNormal(resolveDir)
    ensures Imports(inputs, cwd, resolveDir, decode).Ok? <==>
      forall k :: 0 <= k < |inputs| ==> ImportOf(inputs[k], cwd, resolveDir, decode).Ok?
    ensures Imports(inputs, cwd, resolveDir, decode).Ok? ==>
      && |Imports(inputs, cwd, resolveDir, decode).value| == |inputs|
      && forall k :: 0 <= k < |inputs| ==>
        Imports(inputs, cwd, resolveDir, decode).value[k] == ImportOf(inputs[k], cwd, resolveDir, decode).value
    ensures Imports(inputs, cwd, resolveDir, decode).Err? ==>
      exists k :: 0 <= k < |inputs|
        && ImportOf(inputs[k], cwd, resolveDir, decode) == Err(Imports(inputs, cwd, resolveDir, decode).error)
        && forall j :: 0 <= j < k ==> ImportOf(inputs[j], cwd, resolveDir, decode).Ok?
  {
    ImportsOk(inputs, cwd, resolveDir, decode);
    ImportsFirstError(inputs, cwd, resolveDir, decode);
  }

  lemma {:induction false} ImportsOk(inputs: seq<Input>, cwd: seq<string>, resolveDir: seq<string>, decode: Buffer -> string)
    requires IsNormal(cwd) && IsNormal(resolveDir)
    ensures Imports(inputs, cwd, resolveDir, decode).Ok? <==>
      forall k :: 0 <= k < |inputs| ==> ImportOf(inputs[k], cwd, resolveDir, decode).Ok?
    ensures Imports(inputs, cwd, resolveDir, decode).Ok? ==>
      && |Imports(inputs, cwd, resolveDir, decode).value| == |inputs|
      && forall k :: 0 <= k < |inputs| ==>
        Imports(inputs, cwd, resolveDir, decode).value[k] == ImportOf(inputs[k], cwd, resolveDir, decode).value
  {
    if inputs != [] {
      var tail := inputs[1..];
      var head := ImportOf(inputs[0], cwd, resolveDir, decode);
      var rest := Imports(tail, cwd, resolveDir, decode);
      ImportsOk(tail, cwd, resolveDir, decode);
      forall k | 0 < k < |inputs| ensures inputs[k] == tail[k - 1] { }
      if head.Ok? && rest.Ok? {
        assert Imports(inputs, cwd, resolveDir, decode) == Ok([head.value] + rest.value);
      } else if head.Ok? {
        var k :| 0 <= k < |tail| && ImportOf(tail[k], cwd, resolveDir, decode).Err?;
        assert inputs[k + 1] == tail[k];
      }
    }
  }

  lemma {:induction false} ImportsFirstError(inputs: seq<Input>, cwd: seq<string>, resolveDir: seq<string>, decode: Buffer -> string)
    requires IsNormal(cwd) && IsNormal(resolveDir)
    ensures Imports(inputs, cwd, resolveDir, decode).Err? ==>
      exists k :: 0 <= k < |inputs|
        && ImportOf(inputs[k], cwd, resolveDir, decode) == Err(Imports(inputs, cwd, resolveDir, decode).error)
        && forall j :: 0 <= j < k ==> ImportOf(inputs[j], cwd, resolveDir, decode).Ok?
  {
    if inputs != [] {
      var tail := inputs[1..];
      var head := ImportOf(inputs[0], cwd, resolveDir, decode);
      var rest := Imports(tail, cwd, resolveDir, decode);
      if head.Err? {
        assert Imports(inputs, cwd, resolveDir, decode) == Err(head.error);
      } else if rest.Err? {
        ImportsFirstError(tail, cwd, resolveDir, decode);
        assert Imports(inputs, cwd, resolveDir, decode) == Err(rest.error);
        var k :| 0 <= k < |tail|
          && ImportOf(tail[k], cwd, resolveDir, decode) == Err(rest.error)
          && forall j :: 0 <= j < k ==> ImportOf(tail[j], cwd, resolveDir, decode).Ok?;
        assert inputs[k + 1] == tail[k];
        forall j | 0 < j <= k ensures ImportOf(inputs[j], cwd, resolveDir, decode).Ok? {
          assert inputs[j] == tail[j - 1];
        }
      }
    }
  }



  /** A local input is imported by a path that, taken from the output
      directory, leads back to the input's file; a URL is imported verbatim. */
  lemma ImportTarget(p: string, cwd: seq<string>, resolveDir: seq<string>, decode: Buffer -> string)
    requires IsNormal(cwd) && IsNormal(resolveDir)
    ensures IsHttpUrl(p) ==> ImportOf(Path(p), cwd, resolveDir, decode) == Ok(ImportStatement(p))
    ensures !IsHttpUrl(p) ==>
      exists t :: ImportOf(Path(p), cwd, resolveDir, decode) == Ok(ImportStatement(t))
        && Normalize(resolveDir, SplitSlash(t)) == Resolve(cwd, p)
  {
    if !IsHttpUrl(p) {
      RelativeResolves(cwd, resolveDir, p);
    }
  }

  /** A Buffer is accepted exactly when its text is a URL. */
  lemma ImportOfBuffer(b: Buffer, cwd: seq<string>, resolveDir: seq<string>, decode: Buffer -> string)
    requires IsNormal(cwd) && IsNormal(resolveDir)
    ensures ImportOf(Buf(b), cwd, resolveDir, decode).Ok? <==> IsHttpUrl(decode(b))
  {
  }

  lemma {:induction false} JoinIsUnlines(parts: seq<string>)
    requires parts != []
    ensures Join(parts, "\n") == Unlines(parts[..|parts| - 1]) + parts[|parts| - 1]
  {
    if |parts| > 1 {
      JoinIsUnlines(parts[1..]);
      assert parts[1..][..|parts| - 2] == parts[..|parts| - 1][1..];
    } else {
      assert parts[..0] == [];
    }
  }

  lemma InitLast(parts: seq<string>)
    requires parts != []
    ensures parts[..|parts| - 1] + [parts[|parts| - 1]] == parts
    ensures forall j :: 0 <= j < |parts| - 1 ==> parts[..|parts| - 1][j] == parts[j]
  {
  }

  /** Joining break-free lines with "\n" and reading the text back gives the
      lines, provided the last one is not empty. */
  lemma LinesOfJoin(parts: seq<string>)
    requires forall k :: 0 <= k < |parts| ==> NoBreaks(parts[k])
    requires parts != [] ==> parts[|parts| - 1] != []
    ensures Lines(Join(parts, "\n")) == parts
  {
    if parts != [] {
      var n := |parts| - 1;
      InitLast(parts);
      JoinIsUnlines(parts);
      LinesOfUnlines(parts[..n], parts[n]);
    }
  }

  /** Every statement starts with "@import". */
  lemma ImportsNonEmpty(inputs: seq<Input>, cwd: seq<string>, resolveDir: seq<string>, decode: Buffer -> string)
    requires IsNormal(cwd) && IsNormal(resolveDir)
    requires Imports(inputs, cwd, resolveDir, decode).Ok?
    ensures var stmts := Imports(inputs, cwd, resolveDir, decode).value;
      forall k :: 0 <= k < |stmts| ==> stmts[k] != [] && stmts[k][0] == '@'
  {
    ImportsSpec(inputs, cwd, resolveDir, decode);
  }

  /** Reading the style entry back line by line gives the statements, one per
      input, provided no statement holds a line break itself. */
  lemma CssEntryLines(inputs: seq<Input>, cwd: seq<string>, resolveDir: seq<string>, decode: Buffer -> string)
    requires IsNormal(cwd) && IsNormal(resolveDir)
    requires Imports(inputs, cwd, resolveDir, decode).Ok?
    requires var stmts := Imports(inputs, cwd, resolveDir, decode).value;
      forall k :: 0 <= k < |stmts| ==> NoBreaks(stmts[k])
    ensures Lines(CssEntry(inputs, cwd, resolveDir, decode).value) == Imports(inputs, cwd, resolveDir, decode).value
  {
    ImportsNonEmpty(inputs, cwd, resolveDir, decode);
    LinesOfJoin(Imports(inputs, cwd, resolveDir, decode).value);
  }
}
