/** Worked instances of `browsersToUserAgent`: entries written the way
    browserslist writes them, "<family> <version>". */
module UserAgentExamples {

  import opened Wrappers
  import opened Strings
  import opened Versions
  import opened UserAgent

  /** `browsers` are the entries "firefox <v>" for the versions `vs`. */
  predicate FirefoxList(browsers: seq<string>, vs: seq<Version>) {
    && |browsers| == |vs|
    && forall j :: 0 <= j < |vs| ==> browsers[j] == "firefox " + ToString(vs[j]) && Canonical(vs[j])
  }

  lemma FirefoxVersions(browsers: seq<string>, vs: seq<Version>)
    requires FirefoxList(browsers, vs)
    ensures FamilyVersions(browsers, "firefox") == vs
  {
    var es := Entries(browsers, "firefox");
    forall j | 0 <= j < |vs| ensures es[j] == Some(vs[j]) {
      assert browsers[j] == "firefox" + " " + ToString(vs[j]);
      EntryOfFamily("firefox", vs[j]);
    }
    assert es == seq(|vs|, j requires 0 <= j < |vs| => Some(vs[j]));
    PresentAll(vs);
  }

  lemma FirefoxMinimum(browsers: seq<string>, vs: seq<Version>)
    requires FirefoxList(browsers, vs)
    ensures Minimums(browsers)[0] == Min(vs)
  {
    LowerFirefox();
    FirefoxVersions(browsers, vs);
    MinimumsAt(browsers, 0);
  }

  /** Firefox is the first family tried, matched as "firefox". */
  lemma LowerFirefox()
    ensures Families[0] == "Firefox" && ToLower(Families[0]) == "firefox"
  {
  }

  /** The candidate of family `f` is the minimum of its entries. */
  lemma MinimumsAt(browsers: seq<string>, f: nat)
    requires f < |Families|
    ensures Minimums(browsers)[f] == Min(FamilyVersions(browsers, ToLower(Families[f])))
  {
  }

  /** The first family that qualifies wins. */
  lemma FirstPicked(ms: seq<Option<Version>>)
    requires |ms| == |Families| && Picked(ms[0])
    ensures UserAgentFrom(ms, 0) == Some(UserAgentFor("Firefox", ms[0].value))
  {
  }

  /** With Firefox entries only, the User-Agent is the Firefox one with the
      lowest of their versions. */
  lemma LowestFirefox(browsers: seq<string>, vs: seq<Version>)
    requires FirefoxList(browsers, vs) && vs != []
    requires forall j :: 0 <= j < |vs| ==> Truthy(vs[j])
    ensures UserAgentOf(browsers) == Some(UserAgentFor("Firefox", Min(vs).value))
  {
    MinPicked(vs);
    FirefoxMinimum(browsers, vs);
    FirstPicked(Minimums(browsers));
  }

  lemma Text61()
    ensures ToString(Version(61, [])) == "61"
  {
    assert NatToString(61) == "61";
  }

  lemma Text62()
    ensures ToString(Version(62, [])) == "62"
  {
    assert NatToString(62) == "62";
  }

  lemma FirefoxAgent61()
    ensures UserAgentFor("Firefox", Version(61, [])) == Prefix + "Firefox/61.0"
  {
    Text61();
    assert "Firefox" + "/" + "61" + ".0" == "Firefox/61.0";
  }

  lemma List61()
    ensures FirefoxList(["firefox 61"], [Version(61, [])])
  {
    Text61();
    assert ["firefox 61"][0] == "firefox " + "61";
  }

  lemma List62And61()
    ensures FirefoxList(["firefox 62", "firefox 61"], [Version(62, []), Version(61, [])])
  {
    Text61();
    Text62();
    assert ["firefox 62", "firefox 61"][0] == "firefox " + "62";
    assert ["firefox 62", "firefox 61"][1] == "firefox " + "61";
  }

  /** A query that yields only "firefox 61" gives the User-Agent ending in
      "Firefox/61.0". */
  lemma Firefox61()
    ensures UserAgentOf(["firefox 61"]) == Some(Prefix + "Firefox/61.0")
  {
    var v := Version(61, []);
    List61();
    LowestFirefox(["firefox 61"], [v]);
    assert Min([v]) == Some(v);
    FirefoxAgent61();
  }

  /** With two Firefox entries the lower version is the one used. */
  lemma FirefoxLowerOfTwo()
    ensures UserAgentOf(["firefox 62", "firefox 61"]) == Some(Prefix + "Firefox/61.0")
  {
    var v, w := Version(62, []), Version(61, []);
    List62And61();
    LowestFirefox(["firefox 62", "firefox 61"], [v, w]);
    assert !Le(v, w);
    assert Min([v, w]) == Some(w);
    FirefoxAgent61();
  }
}
