/** The line-granular source map that index.js builds when it concatenates
    scripts itself: one mapping per input line, column 0 on both sides, and
    the state of the `SourceMapGenerator` and `PassThrough` objects it drives. */
module SourceMap {

  import opened Readline

  /** One `addMapping` record: (source, original line, original column) to
      (generated line, generated column); lines count from 1. */
  datatype Mapping = Mapping(source: string, originalLine: nat, originalColumn: nat,
                             generatedLine: nat, generatedColumn: nat)

  /** What a `SourceMapGenerator({ file })` holds once the mappings are added. */
  datatype Generated = Generated(file: string, mappings: seq<Mapping>)

  /** The `source-map` library's generator, reduced to the state index.js
      changes: the mappings added so far, in order. */
  class SourceMapGenerator {
    const file: string
    var mappings: seq<Mapping>

    constructor (file: string)
      ensures this.file == file && mappings == []
    {
      this.file := file;
      mappings := [];
    }

    method AddMapping(m: Mapping)
      modifies this
      ensures mappings == old(mappings) + [m]
    {
      mappings := mappings + [m];
    }

    function Current(): Generated
      reads this
    {
      Generated(file, mappings)
    }
  }

  /** The `PassThrough` stream, reduced to the text written to it so far. */
  class PassThrough {
    var written: string

    constructor ()
      ensures written == []
    {
      written := [];
    }

    method Write(chunk: string)
      modifies this
      ensures written == old(written) + chunk
    {
      written := written + chunk;
    }
  }

  /** One input of the concatenation: its path relative to the output
      directory and the lines `readline` produced from it. */
  datatype Segment = Segment(source: string, lines: seq<string>)

  /** The number of lines of `segs`: the generated-line offset after them. */
  function TotalLines(segs: seq<Segment>): nat {
    if segs == [] then 0 else TotalLines(segs[..|segs| - 1]) + |segs[|segs| - 1].lines|
  }

  /** The mappings of the first `n` lines of one input whose first line goes to
      generated line `offset + 1`. */
  function FileMappings(source: string, n: nat, offset: nat): (ms: seq<Mapping>)
    ensures |ms| == n
  {
    seq(n, j requires 0 <= j < n => Mapping(source, j + 1, 0, offset + j + 1, 0))
  }

  /** All mappings of the inputs `segs`, in the order they are added. */
  function MappingsOf(segs: seq<Segment>): seq<Mapping> {
    if segs == [] then []
    else
      var last := segs[|segs| - 1];
      MappingsOf(segs[..|segs| - 1]) + FileMappings(last.source, |last.lines|, TotalLines(segs[..|segs| - 1]))
  }

  /** All input lines, in order. */
  function AllLines(segs: seq<Segment>): seq<string> {
    if segs == [] then [] else AllLines(segs[..|segs| - 1]) + segs[|segs| - 1].lines
  }

  /** The text written for `segs`: every line followed by "\n". */
  function TextOf(segs: seq<Segment>): string {
    if segs == [] then [] else TextOf(segs[..|segs| - 1]) + Unlines(segs[|segs| - 1].lines)
  }

  /** Adding one input extends the mappings, the text and the offset. */
  lemma AppendSegment(segs: seq<Segment>, seg: Segment)
    ensures MappingsOf(segs + [seg]) == MappingsOf(segs) + FileMappings(seg.source, |seg.lines|, TotalLines(segs))
    ensures TextOf(segs + [seg]) == TextOf(segs) + Unlines(seg.lines)
    ensures TotalLines(segs + [seg]) == TotalLines(segs) + |seg.lines|
  {
    assert (segs + [seg])[..|segs|] == segs;
  }

  lemma FileMappingsStep(source: string, i: nat, offset: nat)
    ensures FileMappings(source, i + 1, offset) == FileMappings(source, i, offset) + [Mapping(source, i + 1, 0, offset + i + 1, 0)]
  {
  }

  lemma UnlinesStep(lines: seq<string>, i: nat)
    requires i < |lines|
    ensures Unlines(lines[..i + 1]) == Unlines(lines[..i]) + (lines[i] + "\n")
  {
    UnlinesAppend(lines[..i], [lines[i]]);
    assert lines[..i + 1] == lines[..i] + [lines[i]];
  }

  lemma {:induction false} UnlinesAppend(a: seq<string>, b: seq<string>)
    ensures Unlines(a + b) == Unlines(a) + Unlines(b)
  {
    if a != [] {
      assert (a + b)[1..] == a[1..] + b;
      UnlinesAppend(a[1..], b);
    } else {
      assert a + b == b;
    }
  }

  /** The written text is exactly the input lines, each followed by "\n". */
  lemma {:induction false} TextIsUnlines(segs: seq<Segment>)
    ensures TextOf(segs) == Unlines(AllLines(segs))
  {
    if segs != [] {
      TextIsUnlines(segs[..|segs| - 1]);
      UnlinesAppend(AllLines(segs[..|segs| - 1]), segs[|segs| - 1].lines);
    }
  }

  /** One mapping per line; generated lines run 1, 2, ..., total without gap,
      and every column is 0. */
  lemma {:induction false} MappingsContiguous(segs: seq<Segment>)
    ensures |MappingsOf(segs)| == TotalLines(segs) == |AllLines(segs)|
    ensures forall g :: 0 <= g < |MappingsOf(segs)| ==>
      MappingsOf(segs)[g].generatedLine == g + 1
      && MappingsOf(segs)[g].generatedColumn == 0 && MappingsOf(segs)[g].originalColumn == 0
  {
    if segs != [] {
      var init := segs[..|segs| - 1];
      MappingsContiguous(init);
      var last := segs[|segs| - 1];
      var ms := MappingsOf(segs);
      assert ms == MappingsOf(init) + FileMappings(last.source, |last.lines|, TotalLines(init));
      forall g | 0 <= g < |ms|
        ensures ms[g].generatedLine == g + 1 && ms[g].generatedColumn == 0 && ms[g].originalColumn == 0
      {
        if g >= |MappingsOf(init)| {
          assert ms[g] == FileMappings(last.source, |last.lines|, TotalLines(init))[g - |MappingsOf(init)|];
        }
      }
    }
  }

  /** Generated line numbers strictly increase along the mappings. */
  lemma MappingsIncreasing(segs: seq<Segment>)
    ensures forall g, h :: 0 <= g < h < |MappingsOf(segs)| ==>
      MappingsOf(segs)[g].generatedLine < MappingsOf(segs)[h].generatedLine
  {
    MappingsContiguous(segs);
  }

  /** Line `i + 1` of input `k` is mapped from generated line `offset + i + 1`,
      where `offset` is the number of lines of the inputs before `k`; and that
      generated line holds the text of that input line. */
  lemma {:induction false} MappingAt(segs: seq<Segment>, k: nat, i: nat)
    requires k < |segs| && i < |segs[k].lines|
    ensures TotalLines(segs[..k]) + i < |MappingsOf(segs)| == |AllLines(segs)|
    ensures MappingsOf(segs)[TotalLines(segs[..k]) + i]
      == Mapping(segs[k].source, i + 1, 0, TotalLines(segs[..k]) + i + 1, 0)
    ensures AllLines(segs)[TotalLines(segs[..k]) + i] == segs[k].lines[i]
  {
    MappingsContiguous(segs);
    var init := segs[..|segs| - 1];
    MappingsContiguous(init);
    if k == |segs| - 1 {
      assert segs[..k] == init;
      var o := TotalLines(init);
      assert MappingsOf(segs)[o + i] == FileMappings(segs[k].source, |segs[k].lines|, o)[i];
      assert AllLines(segs)[o + i] == segs[k].lines[i];
    } else {
      MappingAt(init, k, i);
      assert init[..k] == segs[..k];
      assert init[k] == segs[k];
    }
  }

  /** Every mapping points at an existing line of an input whose text is the
      text of the generated line it maps. */
  lemma {:induction false} MappingResolves(segs: seq<Segment>, g: nat)
    requires g < |MappingsOf(segs)|
    ensures g < |AllLines(segs)|
    ensures exists k ::
      && 0 <= k < |segs| && segs[k].source == MappingsOf(segs)[g].source
      && 1 <= MappingsOf(segs)[g].originalLine <= |segs[k].lines|
      && segs[k].lines[MappingsOf(segs)[g].originalLine - 1] == AllLines(segs)[g]
  {
    MappingsContiguous(segs);
    var init := segs[..|segs| - 1];
    MappingsContiguous(init);
    var last := segs[|segs| - 1];
    if g < |MappingsOf(init)| {
      MappingResolves(init, g);
      assert MappingsOf(segs)[g] == MappingsOf(init)[g];
      assert AllLines(segs)[g] == AllLines(init)[g];
      var k :| 0 <= k < |init| && init[k].source == MappingsOf(init)[g].source
        && 1 <= MappingsOf(init)[g].originalLine <= |init[k].lines|
        && init[k].lines[MappingsOf(init)[g].originalLine - 1] == AllLines(init)[g];
      assert segs[k] == init[k];
    } else {
      var i := g - |MappingsOf(init)|;
      assert MappingsOf(segs)[g] == FileMappings(last.source, |last.lines|, TotalLines(init))[i];
      assert AllLines(segs)[g] == last.lines[i];
    }
  }

  /** Reading the output back line by line gives the input lines followed by
      the trailing comment: generated line `g + 1` is `AllLines(segs)[g]`. */
  lemma OutputLines(segs: seq<Segment>, trailer: string)
    requires forall k :: 0 <= k < |segs| ==> forall j :: 0 <= j < |segs[k].lines| ==> NoBreaks(segs[k].lines[j])
    requires trailer != [] && NoBreaks(trailer)
    ensures Lines(TextOf(segs) + trailer) == AllLines(segs) + [trailer]
  {
    TextIsUnlines(segs);
    AllLinesNoBreaks(segs);
    LinesOfUnlines(AllLines(segs), trailer);
  }

  lemma {:induction false} AllLinesNoBreaks(segs: seq<Segment>)
    requires forall k :: 0 <= k < |segs| ==> forall j :: 0 <= j < |segs[k].lines| ==> NoBreaks(segs[k].lines[j])
    ensures forall j :: 0 <= j < |AllLines(segs)| ==> NoBreaks(AllLines(segs)[j])
  {
    if segs != [] {
      var init := segs[..|segs| - 1];
      AllLinesNoBreaks(init);
      var last := segs[|segs| - 1];
      forall j | 0 <= j < |AllLines(segs)| ensures NoBreaks(AllLines(segs)[j]) {
        if j >= |AllLines(init)| { assert AllLines(segs)[j] == last.lines[j - |AllLines(init)|]; }
        else { assert AllLines(segs)[j] == AllLines(init)[j]; }
      }
    }
  }
}
