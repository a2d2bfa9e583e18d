/** `browsersToUserAgent` (index.js): a User-Agent string derived from the
    browserslist entries, so that remote servers (web font services) answer
    with the variant that the least capable targeted browser understands. */
module UserAgent {

  import opened Wrappers
  import opened Strings
  import opened Versions

  /** The families tried, in this order. */
  const Families: seq<string> := ["Firefox", "Safari", "Chrome"]

  const Prefix: string := "Mozilla/5.0 (X11; Linux x86_64) Gecko/20100101 "

  /** `s.toLowerCase()` on ASCII letters. */
  function ToLower(s: string): (r: string)
    ensures |r| == |s|
  {
    if s == [] then []
    else [if 'A' <= s[0] <= 'Z' then (s[0] as int + 32) as char else s[0]] + ToLower(s[1..])
  }

  /** The number an entry contributes to the family `lb`: the entry must
      contain `lb`, and what is left once `lb` is removed must parse
      (`parseFloat(str.replace(lb, ''))`, NaN being dropped). */
  function EntryVersion(str: string, lb: string): Option<Version> {
    if Contains(str, lb) then ParseFloat(ReplaceFirst(str, lb, "")) else None
  }

  /** The present values of `xs`, in order. */
  function Present(xs: seq<Option<Version>>): seq<Version> {
    if xs == [] then []
    else if xs[0].Some? then [xs[0].value] + Present(xs[1..])
    else Present(xs[1..])
  }

  lemma {:induction false} PresentSound(xs: seq<Option<Version>>, v: Version)
    ensures v in Present(xs) <==> exists j :: 0 <= j < |xs| && xs[j] == Some(v)
  {
    if xs != [] {
      PresentSound(xs[1..], v);
      if exists j :: 0 <= j < |xs| && xs[j] == Some(v) {
        var j :| 0 <= j < |xs| && xs[j] == Some(v);
        if j > 0 { assert xs[1..][j - 1] == xs[j]; }
      }
    }
  }

  /** `browsers.filter(str => str.includes(lb)).map(str => parseFloat(...))`,
      in entry order. */
  function FamilyVersions(browsers: seq<string>, lb: string): seq<Version> {
    Present(Entries(browsers, lb))
  }

  function Entries(browsers: seq<string>, lb: string): (es: seq<Option<Version>>)
    ensures |es| == |browsers|
  {
    seq(|browsers|, j requires 0 <= j < |browsers| => EntryVersion(browsers[j], lb))
  }

  /** The smallest version of `family` among the entries, if any. */
  function MinVersion(browsers: seq<string>, family: string): Option<Version> {
    Min(FamilyVersions(browsers, ToLower(family)))
  }

  /** The smallest version of each family, in the order they are tried. */
  function Minimums(browsers: seq<string>): (ms: seq<Option<Version>>) {
    seq(|Families|, f requires 0 <= f < |Families| => MinVersion(browsers, Families[f]))
  }

  /** A family is picked when its smallest version exists and is not 0
      (`if (minUa)`). */
  predicate Picked(m: Option<Version>) {
    m.Some? && Truthy(m.value)
  }

  function UserAgentFor(family: string, v: Version): string {
    Prefix + family + "/" + ToString(v) + ".0"
  }

  /** The answer when the families before index `i` were skipped, given the
      smallest version `ms[f]` of each family `f`. */
  function UserAgentFrom(ms: seq<Option<Version>>, i: nat): (r: Option<string>)
    requires |ms| == |Families| && i <= |Families|
    decreases |Families| - i
  {
    if i == |Families| then None
    else if Picked(ms[i]) then Some(UserAgentFor(Families[i], ms[i].value))
    else UserAgentFrom(ms, i + 1)
  }

  /** What `browsersToUserAgent(browsers)` returns; `None` is `undefined`. */
  function UserAgentOf(browsers: seq<string>): Option<string> {
    UserAgentFrom(Minimums(browsers), 0)
  }

  /** `browsersToUserAgent`: the loop over the families with its early return. */
  method BrowsersToUserAgent(browsers: seq<string>) returns (ua: Option<string>)
    ensures ua == UserAgentOf(browsers)
  {
    ghost var ms := Minimums(browsers);
    for i := 0 to |Families|
      invariant UserAgentFrom(ms, 0) == UserAgentFrom(ms, i)
    {
      var lb := ToLower(Families[i]);
      var minUa := Min(FamilyVersions(browsers, lb));
      assert minUa == ms[i];
      if minUa.Some? && Truthy(minUa.value) {
        return Some(UserAgentFor(Families[i], minUa.value));
      }
    }
    return None;
  }

  /** The User-Agent names the first family, in the order Firefox, Safari,
      Chrome, whose smallest version is a non-zero number, with that smallest
      version; there is none when no family qualifies. */
  lemma {:induction false} UserAgentChoice(ms: seq<Option<Version>>, i: nat)
    requires |ms| == |Families| && i <= |Families|
    ensures UserAgentFrom(ms, i).None? <==> forall f :: i <= f < |Families| ==> !Picked(ms[f])
    ensures UserAgentFrom(ms, i).Some? ==>
      exists f :: i <= f < |Families| && Picked(ms[f])
        && (forall g :: i <= g < f ==> !Picked(ms[g]))
        && UserAgentFrom(ms, i).value == UserAgentFor(Families[f], ms[f].value)
    decreases |Families| - i
  {
    if i < |Families| && !Picked(ms[i]) {
      UserAgentChoice(ms, i + 1);
    }
  }

  lemma MinIsLe(vs: seq<Version>, v: Version)
    requires v in vs
    ensures Min(vs).Some? && Le(Min(vs).value, v)
  {
    var k :| 0 <= k < |vs| && vs[k] == v;
  }

  /** The version in the User-Agent is that of one of the family's entries,
      and no entry of that family has a smaller one. */
  lemma MinVersionIsSmallest(browsers: seq<string>, lb: string)
    requires Min(FamilyVersions(browsers, lb)).Some?
    ensures exists j :: 0 <= j < |browsers| && Entries(browsers, lb)[j] == Min(FamilyVersions(browsers, lb))
    ensures forall j :: 0 <= j < |browsers| && Entries(browsers, lb)[j].Some? ==>
      Le(Min(FamilyVersions(browsers, lb)).value, Entries(browsers, lb)[j].value)
  {
    var es := Entries(browsers, lb);
    var vs := Present(es);
    PresentSound(es, Min(vs).value);
    forall j | 0 <= j < |browsers| && es[j].Some?
      ensures Le(Min(vs).value, es[j].value)
    {
      PresentSound(es, es[j].value);
      MinIsLe(vs, es[j].value);
    }
  }

  /** An entry written the way browserslist writes one, "<family> <version>",
      contributes that version to the family. */
  lemma EntryOfFamily(lb: string, v: Version)
    requires Canonical(v)
    ensures EntryVersion(lb + " " + ToString(v), lb) == Some(v)
  {
    var t := ToString(v);
    assert lb + " " + t == lb + (" " + t);
    ReplaceAtStart(lb, " " + t, "");
    assert "" + (" " + t) == [' '] + t;
    ParseLeadingSpace(' ', t);
    ParseToString(v);
  }

  lemma {:induction false} PresentAll(vs: seq<Version>)
    ensures Present(seq(|vs|, j requires 0 <= j < |vs| => Some(vs[j]))) == vs
  {
    if vs != [] {
      var xs := seq(|vs|, j requires 0 <= j < |vs| => Some(vs[j]));
      PresentAll(vs[1..]);
      assert xs[1..] == seq(|vs[1..]|, j requires 0 <= j < |vs[1..]| => Some(vs[1..][j]));
    }
  }

  /** Every version an entry contributes is canonical. */
  lemma EntryCanonical(str: string, lb: string)
    ensures EntryVersion(str, lb).Some? ==> Canonical(EntryVersion(str, lb).value)
  {
    if Contains(str, lb) { ParseCanonical(ReplaceFirst(str, lb, "")); }
  }

  /** The version used is numerically the smallest one the family's entries
      give: what `sort((a, b) => a - b).shift()` returns. */
  lemma MinIsNumericallySmallest(browsers: seq<string>, lb: string)
    requires Min(FamilyVersions(browsers, lb)).Some?
    ensures forall j :: 0 <= j < |browsers| && Entries(browsers, lb)[j].Some? ==>
      Value(Min(FamilyVersions(browsers, lb)).value) <= Value(Entries(browsers, lb)[j].value)
  {
    var es := Entries(browsers, lb);
    var m := Min(FamilyVersions(browsers, lb)).value;
    MinVersionIsSmallest(browsers, lb);
    var k :| 0 <= k < |browsers| && es[k] == Some(m);
    EntryCanonical(browsers[k], lb);
    forall j | 0 <= j < |browsers| && es[j].Some?
      ensures Value(m) <= Value(es[j].value)
    {
      EntryCanonical(browsers[j], lb);
      LeValue(m, es[j].value);
    }
  }

  /** The smallest of non-zero versions is not zero. */
  lemma MinPicked(vs: seq<Version>)
    requires vs != []
    requires forall j :: 0 <= j < |vs| ==> Truthy(vs[j])
    ensures Picked(Min(vs))
  {
    var j :| 0 <= j < |vs| && vs[j] == Min(vs).value;
  }
}
