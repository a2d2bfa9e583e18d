/** Browser versions as exact decimals, standing in for the JavaScript numbers
    that `parseFloat` yields from browserslist entries such as "firefox 61" or
    "safari 15.6", with their ordering and their `${}` text form. */
module Versions {

  import opened Wrappers

  type Digit = d: int | 0 <= d < 10

  /** `major.frac`, with the fractional digits kept without trailing zeros so
      that each number has exactly one representation (as a number does). */
  datatype Version = Version(major: nat, frac: seq<Digit>)

  predicate Canonical(v: Version) {
    v.frac == [] || v.frac[|v.frac| - 1] != 0
  }

  /** The number is not 0, i.e. it is truthy in JavaScript. */
  predicate Truthy(v: Version) {
    v.major != 0 || v.frac != []
  }

  predicate IsDigit(c: char) {
    '0' <= c <= '9'
  }

  function DigitOf(c: char): Digit
    requires IsDigit(c)
  {
    c as int - '0' as int
  }

  function DigitChar(d: Digit): (c: char)
    ensures IsDigit(c) && DigitOf(c) == d
  {
    ('0' as int + d) as char
  }

  predicate AllDigits(s: string) {
    forall j :: 0 <= j < |s| ==> IsDigit(s[j])
  }

  /** JavaScript white space that `parseFloat` skips before the number
      (the ASCII part of it). */
  predicate IsSpace(c: char) {
    c == ' ' || c == '\t' || c == '\n' || c == '\r' || c == '\U{000B}' || c == '\U{000C}'
  }

  /** Length of the run of digits at the start of `s`. */
  function DigitRun(s: string): (n: nat)
    ensures n <= |s| && AllDigits(s[..n]) && (n < |s| ==> !IsDigit(s[n]))
  {
    if s == [] || !IsDigit(s[0]) then 0
    else
      var n := 1 + DigitRun(s[1..]);
      assert s[..n] == [s[0]] + s[1..][..n - 1];
      n
  }

  /** The number written by the decimal digits `s`. */
  function ValueOf(s: string): nat
    requires AllDigits(s)
  {
    if s == [] then 0 else ValueOf(s[..|s| - 1]) * 10 + DigitOf(s[|s| - 1])
  }

  function Digits(s: string): (ds: seq<Digit>)
    requires AllDigits(s)
    ensures |ds| == |s|
  {
    if s == [] then [] else [DigitOf(s[0])] + Digits(s[1..])
  }

  function StripZeros(ds: seq<Digit>): (r: seq<Digit>)
    ensures r == [] || r[|r| - 1] != 0
    ensures |r| <= |ds| && r == ds[..|r|]
    ensures forall j :: |r| <= j < |ds| ==> ds[j] == 0
  {
    if ds == [] then []
    else if ds[|ds| - 1] == 0 then StripZeros(ds[..|ds| - 1])
    else ds
  }

  function SkipSpaces(s: string): (r: string)
    ensures |r| <= |s| && r == s[|s| - |r|..]
    ensures r != [] ==> !IsSpace(r[0])
    ensures forall j :: 0 <= j < |s| - |r| ==> IsSpace(s[j])
  {
    if s != [] && IsSpace(s[0]) then SkipSpaces(s[1..]) else s
  }

  /** `parseFloat(s)` for unsigned decimals: leading white space is skipped, then
      the longest prefix of the form digits [ "." digits ] with at least one digit
      is read; `None` stands for NaN. */
  function ParseFloat(s: string): Option<Version> {
    ParseNumber(SkipSpaces(s))
  }

  /** The number at the start of `t`, which begins after the white space. */
  function ParseNumber(t: string): Option<Version> {
    var n := DigitRun(t);
    var intPart := t[..n];
    if n < |t| && t[n] == '.' then
      var rest := t[n + 1..];
      var m := DigitRun(rest);
      if n == 0 && m == 0 then None
      else Some(Version(ValueOf(intPart), StripZeros(Digits(rest[..m]))))
    else if n == 0 then None
    else Some(Version(ValueOf(intPart), []))
  }

  /** A number read has no trailing zero in its fraction. */
  lemma ParseCanonical(s: string)
    ensures ParseFloat(s).Some? ==> Canonical(ParseFloat(s).value)
  {
  }

  /** Leading white space does not change the number read. */
  lemma ParseLeadingSpace(c: char, t: string)
    requires IsSpace(c)
    ensures ParseFloat([c] + t) == ParseFloat(t)
  {
    assert ([c] + t)[1..] == t;
  }

  /** The decimal digits of `n`, without leading zeros. */
  function NatToString(n: nat): (s: string)
    ensures s != [] && AllDigits(s)
    ensures n > 0 ==> s[0] != '0'
    ensures |s| > 1 ==> s[0] != '0'
  {
    if n < 10 then [DigitChar(n)] else NatToString(n / 10) + [DigitChar(n % 10)]
  }

  function DigitsToString(ds: seq<Digit>): (s: string)
    ensures |s| == |ds| && AllDigits(s)
  {
    if ds == [] then [] else [DigitChar(ds[0])] + DigitsToString(ds[1..])
  }

  /** `${v}`: the integer part, then "." and the fractional digits if any. */
  function ToString(v: Version): string {
    NatToString(v.major) + (if v.frac == [] then "" else "." + DigitsToString(v.frac))
  }

  lemma {:induction false} ValueOfNatToString(n: nat)
    ensures ValueOf(NatToString(n)) == n
  {
    if n >= 10 {
      var s := NatToString(n);
      assert s[..|s| - 1] == NatToString(n / 10);
      ValueOfNatToString(n / 10);
    }
  }

  lemma {:induction false} DigitsOfString(ds: seq<Digit>)
    ensures Digits(DigitsToString(ds)) == ds
  {
    if ds != [] {
      assert DigitsToString(ds)[1..] == DigitsToString(ds[1..]);
      DigitsOfString(ds[1..]);
    }
  }

  lemma DigitRunAll(s: string, rest: string)
    requires AllDigits(s) && (rest == [] || !IsDigit(rest[0]))
    ensures DigitRun(s + rest) == |s|
    decreases |s|
  {
    if s != [] {
      assert (s + rest)[1..] == s[1..] + rest;
      DigitRunAll(s[1..], rest);
    }
  }

  /** Reading back the text form of a version gives the version: the numbers
      printed into a User-Agent are the ones that were parsed. */
  lemma ParseToString(v: Version)
    requires Canonical(v)
    ensures ParseFloat(ToString(v)) == Some(v)
  {
    var s := ToString(v);
    assert SkipSpaces(s) == s;
    if v.frac == [] {
      ParseWhole(v.major);
    } else {
      ParseFraction(v);
    }
  }

  lemma ParseWhole(n: nat)
    ensures ParseNumber(ToString(Version(n, []))) == Some(Version(n, []))
  {
    var i := NatToString(n);
    var s := ToString(Version(n, []));
    ValueOfNatToString(n);
    assert s == i + [];
    DigitRunAll(i, []);
    assert s[..|i|] == i;
  }

  lemma ParseFraction(v: Version)
    requires Canonical(v) && v.frac != []
    ensures ParseNumber(ToString(v)) == Some(v)
  {
    var i := NatToString(v.major);
    var s := ToString(v);
    ValueOfNatToString(v.major);
    var f := DigitsToString(v.frac);
    assert s == i + ("." + f);
    DigitRunAll(i, "." + f);
    assert s[..|i|] == i;
    assert s[|i|] == '.';
    assert s[|i| + 1..] == f;
    DigitRunAll(f, []);
    assert f + [] == f && f[..|f|] == f;
    DigitsOfString(v.frac);
  }

  /** Numeric order of fractional digit strings: lexicographic, a proper prefix
      being smaller. */
  predicate FracLe(a: seq<Digit>, b: seq<Digit>) {
    a == [] || (b != [] && (a[0] < b[0] || (a[0] == b[0] && FracLe(a[1..], b[1..]))))
  }

  /** `v <= w` as numbers. */
  predicate Le(v: Version, w: Version) {
    v.major < w.major || (v.major == w.major && FracLe(v.frac, w.frac))
  }

  lemma {:induction false} FracLeTotal(a: seq<Digit>, b: seq<Digit>)
    ensures FracLe(a, b) || FracLe(b, a)
  {
    if a != [] && b != [] && a[0] == b[0] { FracLeTotal(a[1..], b[1..]); }
  }

  lemma {:induction false} FracLeTrans(a: seq<Digit>, b: seq<Digit>, c: seq<Digit>)
    requires FracLe(a, b) && FracLe(b, c)
    ensures FracLe(a, c)
  {
    if a != [] && b != [] && c != [] && a[0] == b[0] && b[0] == c[0] {
      FracLeTrans(a[1..], b[1..], c[1..]);
    }
  }

  lemma {:induction false} FracLeAntisym(a: seq<Digit>, b: seq<Digit>)
    requires FracLe(a, b) && FracLe(b, a)
    ensures a == b
  {
    if a != [] && b != [] {
      FracLeAntisym(a[1..], b[1..]);
      assert a == [a[0]] + a[1..] && b == [b[0]] + b[1..];
    }
  }

  /** `Le` is a total order on versions. */
  lemma LeTotalOrder(u: Version, v: Version, w: Version)
    ensures Le(u, v) || Le(v, u)
    ensures Le(u, v) && Le(v, w) ==> Le(u, w)
    ensures Le(u, v) && Le(v, u) ==> u == v
  {
    FracLeTotal(u.frac, v.frac);
    if Le(u, v) && Le(v, w) && u.major == v.major == w.major { FracLeTrans(u.frac, v.frac, w.frac); }
    if Le(u, v) && Le(v, u) { FracLeAntisym(u.frac, v.frac); }
  }

  /** The value of the fractional digits `0.d1d2...` as a real number. */
  function FracVal(f: seq<Digit>): real
    decreases |f|
  {
    if f == [] then 0.0 else (f[0] as real + FracVal(f[1..])) / 10.0
  }

  /** The number a version stands for. */
  function Value(v: Version): real {
    v.major as real + FracVal(v.frac)
  }

  /** A fraction lies in [0, 1), and above 0 when its last digit is not 0. */
  lemma {:induction false} FracValBounds(f: seq<Digit>)
    ensures 0.0 <= FracVal(f) < 1.0
    ensures f != [] && f[|f| - 1] != 0 ==> 0.0 < FracVal(f)
    decreases |f|
  {
    if f != [] {
      FracValBounds(f[1..]);
      if f[|f| - 1] != 0 && f[0] == 0 {
        assert |f| > 1 && f[1..][|f| - 2] == f[|f| - 1];
      }
    }
  }

  /** On fractions without trailing zeros, `FracLe` is the order of their values. */
  lemma {:induction false} FracLeValue(a: seq<Digit>, b: seq<Digit>)
    requires a == [] || a[|a| - 1] != 0
    requires b == [] || b[|b| - 1] != 0
    ensures FracLe(a, b) <==> FracVal(a) <= FracVal(b)
    decreases |a|
  {
    FracValBounds(a);
    FracValBounds(b);
    if a != [] && b != [] {
      FracValBounds(a[1..]);
      FracValBounds(b[1..]);
      if a[0] == b[0] {
        assert a[1..] == [] || a[1..][|a| - 2] == a[|a| - 1];
        assert b[1..] == [] || b[1..][|b| - 2] == b[|b| - 1];
        FracLeValue(a[1..], b[1..]);
      }
    }
  }

  /** `Le` compares the numbers the versions stand for, as `a - b` does. */
  lemma LeValue(v: Version, w: Version)
    requires Canonical(v) && Canonical(w)
    ensures Le(v, w) <==> Value(v) <= Value(w)
  {
    FracLeValue(v.frac, w.frac);
    FracValBounds(v.frac);
    FracValBounds(w.frac);
  }

  /** A canonical version is truthy exactly when its number is not 0. */
  lemma TruthyValue(v: Version)
    requires Canonical(v)
    ensures Truthy(v) <==> Value(v) != 0.0
  {
    FracValBounds(v.frac);
  }

  /** The first element of `vs` once sorted in ascending order
      (`vs.sort((a, b) => a - b).shift()`); `None` for an empty list. */
  function Min(vs: seq<Version>): (r: Option<Version>)
    ensures r.None? <==> vs == []
    ensures r.Some? ==> r.value in vs && forall j :: 0 <= j < |vs| ==> Le(r.value, vs[j])
  {
    if vs == [] then None
    else
      match Min(vs[1..])
      case None =>
        LeTotalOrder(vs[0], vs[0], vs[0]);
        Some(vs[0])
      case Some(m) =>
        LeTotalOrder(vs[0], m, m);
        if Le(vs[0], m) then
          LeTotalOrder(vs[0], vs[0], vs[0]);
          assert forall j :: 1 <= j < |vs| ==> Le(vs[0], vs[j]) by {
            forall j | 1 <= j < |vs| ensures Le(vs[0], vs[j]) {
              assert vs[j] == vs[1..][j - 1];
              LeTotalOrder(vs[0], m, vs[j]);
            }
          }
          Some(vs[0])
        else
          assert forall j :: 0 <= j < |vs| ==> Le(m, vs[j]) by {
            forall j | 0 <= j < |vs| ensures Le(m, vs[j]) {
              if j > 0 { assert vs[j] == vs[1..][j - 1]; }
            }
          }
          Some(m)
  }
}
