/** The parts of Node's `path` module (POSIX flavour) that the bundler uses,
    over paths split into '/'-separated segments: `resolve` against a working
    directory, `relative`, `basename` and `extname`. */
module NodePath {

  import opened Wrappers
  import opened Strings

  /** `s.split('/')`: the pieces between slashes, empty pieces included. */
  function SplitSlash(s: string): (parts: seq<string>)
    ensures |parts| >= 1
    ensures forall j :: 0 <= j < |parts| ==> '/' !in parts[j]
    decreases |s|
  {
    if '/' !in s then [s]
    else
      var k := SlashAt(s);
      [s[..k]] + SplitSlash(s[k + 1..])
  }

  function SlashAt(s: string): (k: nat)
    requires '/' in s
    ensures k < |s| && s[k] == '/' && '/' !in s[..k]
  {
    if s[0] == '/' then 0
    else
      var k := 1 + SlashAt(s[1..]);
      assert s[..k] == [s[0]] + s[1..][..k - 1];
      k
  }

  /** A resolved absolute path: segments that are neither empty, "." nor "..",
      and contain no slash. */
  predicate IsNormal(segs: seq<string>) {
    forall j :: 0 <= j < |segs| ==> segs[j] != "" && segs[j] != "." && segs[j] != ".." && '/' !in segs[j]
  }

  /** Walking `segs` from the directory `base`: empty and "." pieces stay put,
      ".." goes to the parent (the root is its own parent), anything else
      descends. */
  function Normalize(base: seq<string>, segs: seq<string>): (r: seq<string>)
    requires IsNormal(base)
    requires forall j :: 0 <= j < |segs| ==> '/' !in segs[j]
    ensures IsNormal(r)
    decreases |segs|
  {
    if segs == [] then base
    else
      var s := segs[0];
      var next :=
        if s == "" || s == "." then base
        else if s == ".." then (if base == [] then [] else base[..|base| - 1])
        else base + [s];
      Normalize(next, segs[1..])
  }

  /** `Path.resolve(p)` with the process working directory `cwd`. */
  function Resolve(cwd: seq<string>, p: string): (r: seq<string>)
    requires IsNormal(cwd)
    ensures IsNormal(r)
  {
    if IsPrefix("/", p) then Normalize([], SplitSlash(p)) else Normalize(cwd, SplitSlash(p))
  }

  function CommonPrefix(a: seq<string>, b: seq<string>): (c: nat)
    ensures c <= |a| && c <= |b| && a[..c] == b[..c]
    ensures c < |a| && c < |b| ==> a[c] != b[c]
  {
    if a == [] || b == [] || a[0] != b[0] then 0
    else
      var c := 1 + CommonPrefix(a[1..], b[1..]);
      assert a[..c] == [a[0]] + a[1..][..c - 1];
      assert b[..c] == [b[0]] + b[1..][..c - 1];
      c
  }

  function Ups(n: nat): (r: seq<string>)
    ensures |r| == n && forall j :: 0 <= j < n ==> r[j] == ".."
  {
    if n == 0 then [] else [".."] + Ups(n - 1)
  }

  /** The segments of `Path.relative(from, to)` for resolved paths: one ".." per
      directory of `from` below the common ancestor, then the rest of `to`. */
  function RelativeSegments(from: seq<string>, to: seq<string>): seq<string> {
    var c := CommonPrefix(from, to);
    Ups(|from| - c) + to[c..]
  }

  /** `Path.relative(from, to)` as text; "" when both resolve to the same path. */
  function Relative(cwd: seq<string>, from: seq<string>, to: string): string
    requires IsNormal(cwd) && IsNormal(from)
  {
    Join(RelativeSegments(from, Resolve(cwd, to)), "/")
  }

  /** Plain segments descend one directory each. */
  lemma {:induction false} NormalizeDescends(base: seq<string>, tail: seq<string>)
    requires IsNormal(base) && IsNormal(tail)
    ensures Normalize(base, tail) == base + tail
    decreases |tail|
  {
    if tail != [] {
      NormalizeDescends(base + [tail[0]], tail[1..]);
      assert base + [tail[0]] + tail[1..] == base + tail;
    }
  }

  /** `n` ".." segments climb `n` directories, then the rest descends. */
  lemma {:induction false} NormalizeUps(base: seq<string>, n: nat, tail: seq<string>)
    requires IsNormal(base) && IsNormal(tail) && n <= |base|
    ensures Normalize(base, Ups(n) + tail) == base[..|base| - n] + tail
    decreases n
  {
    if n > 0 {
      assert (Ups(n) + tail)[1..] == Ups(n - 1) + tail;
      NormalizeUps(base[..|base| - 1], n - 1, tail);
      assert base[..|base| - 1][..|base| - 1 - (n - 1)] == base[..|base| - n];
    } else {
      assert Ups(0) + tail == tail;
      NormalizeDescends(base, tail);
      assert base[..|base|] == base;
    }
  }

  lemma {:induction false} SplitJoin(segs: seq<string>)
    requires |segs| >= 1 && forall j :: 0 <= j < |segs| ==> '/' !in segs[j]
    ensures SplitSlash(Join(segs, "/")) == segs
  {
    if |segs| == 1 {
    } else {
      var s := Join(segs, "/");
      assert s == segs[0] + "/" + Join(segs[1..], "/");
      assert '/' in s by { assert s[|segs[0]|] == '/'; }
      var k := SlashAt(s);
      assert k == |segs[0]|;
      assert s[..k] == segs[0];
      assert s[k + 1..] == Join(segs[1..], "/");
      SplitJoin(segs[1..]);
    }
  }

  /** Walking the relative segments from `from` arrives at `to`. */
  lemma RelativeSegmentsNormalize(from: seq<string>, to: seq<string>)
    requires IsNormal(from) && IsNormal(to)
    ensures Normalize(from, RelativeSegments(from, to)) == to
  {
    var c := CommonPrefix(from, to);
    assert IsNormal(to[c..]) by {
      forall j | 0 <= j < |to[c..]| ensures to[c..][j] != "" && to[c..][j] != "." && to[c..][j] != ".." && '/' !in to[c..][j] {
        assert to[c..][j] == to[c + j];
      }
    }
    NormalizeUps(from, |from| - c, to[c..]);
    assert from[..c] + to[c..] == to;
  }

  lemma RelativeSegmentsNoSlash(from: seq<string>, to: seq<string>)
    requires IsNormal(to)
    ensures forall j :: 0 <= j < |RelativeSegments(from, to)| ==> '/' !in RelativeSegments(from, to)[j]
  {
    var rel := RelativeSegments(from, to);
    var c := CommonPrefix(from, to);
    forall j | 0 <= j < |rel| ensures '/' !in rel[j] {
      if j >= |from| - c { assert rel[j] == to[c + (j - (|from| - c))]; }
    }
  }

  /** `Path.resolve(from, Path.relative(from, to))` is `to`: the relative path
      points back at its target. */
  lemma RelativeResolves(cwd: seq<string>, from: seq<string>, to: string)
    requires IsNormal(cwd) && IsNormal(from)
    ensures Normalize(from, SplitSlash(Relative(cwd, from, to))) == Resolve(cwd, to)
  {
    var t := Resolve(cwd, to);
    var rel := RelativeSegments(from, t);
    RelativeSegmentsNormalize(from, t);
    if rel == [] {
      assert Join(rel, "/") == "";
      assert SplitSlash("") == [""];
    } else {
      RelativeSegmentsNoSlash(from, t);
      SplitJoin(rel);
    }
  }

  /** The relative path is empty exactly when `to` resolves to `from` itself. */
  lemma RelativeEmpty(cwd: seq<string>, from: seq<string>, to: string)
    requires IsNormal(cwd) && IsNormal(from)
    ensures RelativeSegments(from, Resolve(cwd, to)) == [] <==> Resolve(cwd, to) == from
  {
    var t := Resolve(cwd, to);
    var c := CommonPrefix(from, t);
    if RelativeSegments(from, t) == [] {
      assert |Ups(|from| - c)| == 0 && |t[c..]| == 0;
      assert from == from[..c] && t == t[..c];
    }
  }

  /** The last non-empty piece of the path (`Path.basename`), "" for "/" or "". */
  function Basename(p: string): string {
    LastNonEmpty(SplitSlash(p))
  }

  function LastNonEmpty(parts: seq<string>): string {
    if parts == [] then ""
    else if parts[|parts| - 1] != "" then parts[|parts| - 1]
    else LastNonEmpty(parts[..|parts| - 1])
  }

  function LastDot(b: string): (r: Option<nat>)
    ensures r.Some? ==> r.value < |b| && b[r.value] == '.' && '.' !in b[r.value + 1..]
    ensures r.None? ==> '.' !in b
  {
    if b == [] then None
    else if b[|b| - 1] == '.' then Some(|b| - 1)
    else
      var r := LastDot(b[..|b| - 1]);
      if r.Some? then
        assert b[r.value + 1..] == b[..|b| - 1][r.value + 1..] + [b[|b| - 1]];
        r
      else
        assert b == b[..|b| - 1] + [b[|b| - 1]];
        r
  }

  /** `Path.extname` of a basename: from the last '.' to the end, except that a
      name without a dot, a name whose only dot is its first character and the
      name ".." have no extension. */
  function ExtOf(b: string): string {
    match LastDot(b)
    case None => ""
    case Some(d) => if d == 0 || b == ".." then "" else b[d..]
  }

  /** `Path.extname(p)`. */
  function Extname(p: string): string {
    ExtOf(Basename(p))
  }

  /** The extension is ".js" exactly when the basename ends in ".js" after at
      least one other character (so a file named ".js" has no extension). */
  lemma ExtIsJs(b: string)
    ensures ExtOf(b) == ".js" <==> |b| >= 4 && b[|b| - 3..] == ".js"
  {
    var e := ExtOf(b);
    if e == ".js" {
      var d := LastDot(b).value;
      assert b[d..] == ".js";
      assert d >= 1;
      assert |b| - 3 == d;
    }
    if |b| >= 4 && b[|b| - 3..] == ".js" {
      assert b[|b| - 3] == '.';
      assert '.' !in b[|b| - 2..] by { assert b[|b| - 2..] == "js"; }
      var r := LastDot(b);
      assert r.Some?;
      assert r.value == |b| - 3;
      assert b != "..";
    }
  }
}
