/** A worked instance of `Path.relative`: the source names recorded for two
    stylesheets next to an output two directories further down. */
module NodePathExamples {

  import opened Strings
  import opened NodePath

  /** A shared leading directory does not change how far the paths agree
      beyond it. */
  lemma {:induction false} CommonPrefixShared(d: seq<string>, a: seq<string>, b: seq<string>)
    ensures CommonPrefix(d + a, d + b) == |d| + CommonPrefix(a, b)
  {
    if d != [] {
      assert (d + a)[1..] == d[1..] + a;
      assert (d + b)[1..] == d[1..] + b;
      CommonPrefixShared(d[1..], a, b);
    } else {
      assert d + a == a && d + b == b;
    }
  }

  /** From the directory `<d>/output/css` the file `<d>/css/sample1.css` is
      reached as "../../css/sample1.css", whatever the directory `d`. */
  lemma SampleRelative(d: seq<string>)
    ensures RelativeSegments(d + ["output", "css"], d + ["css", "sample1.css"])
      == ["..", "..", "css", "sample1.css"]
  {
    var from, to := d + ["output", "css"], d + ["css", "sample1.css"];
    CommonPrefixShared(d, ["output", "css"], ["css", "sample1.css"]);
    assert CommonPrefix(["output", "css"], ["css", "sample1.css"]) == 0;
    assert to[|d|..] == ["css", "sample1.css"];
    assert Ups(2) == ["..", ".."];
  }

  lemma JoinStep(first: string, rest: seq<string>)
    requires rest != []
    ensures Join([first] + rest, "/") == first + "/" + Join(rest, "/")
  {
    assert ([first] + rest)[1..] == rest;
  }

  lemma JoinOne(a: string)
    ensures Join([a], "/") == a
  {
  }

  lemma SampleTail()
    ensures Join(["css", "sample1.css"], "/") == "css/sample1.css"
  {
    JoinOne("sample1.css");
    assert ["css", "sample1.css"] == ["css"] + ["sample1.css"];
    JoinStep("css", ["sample1.css"]);
  }

  lemma SampleUp()
    ensures Join(["..", "css", "sample1.css"], "/") == "../css/sample1.css"
  {
    SampleTail();
    assert ["..", "css", "sample1.css"] == [".."] + ["css", "sample1.css"];
    JoinStep("..", ["css", "sample1.css"]);
  }

  /** The source name the repository's style test expects. */
  lemma SampleText()
    ensures Join(["..", "..", "css", "sample1.css"], "/") == "../../css/sample1.css"
  {
    SampleUp();
    assert ["..", "..", "css", "sample1.css"] == [".."] + ["..", "css", "sample1.css"];
    JoinStep("..", ["..", "css", "sample1.css"]);
  }
}
