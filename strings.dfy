/** Small string helpers shared by the model: prefixes, substring search and
    JavaScript's `String.prototype.replace` with a string pattern. */
module Strings {

  import opened Wrappers

  predicate IsPrefix(p: string, s: string) {
    |p| <= |s| && s[..|p|] == p
  }

  predicate OccursAt(pat: string, s: string, k: nat) {
    k + |pat| <= |s| && s[k..k + |pat|] == pat
  }

  /** `s.includes(pat)`. */
  predicate Contains(s: string, pat: string) {
    exists k: nat | k <= |s| :: OccursAt(pat, s, k)
  }

  /** The first index at which `pat` occurs in `s`, if any (`s.indexOf(pat)`). */
  function IndexOf(s: string, pat: string): (r: Option<nat>)
    ensures r.Some? ==> OccursAt(pat, s, r.value)
    decreases |s|
  {
    if OccursAt(pat, s, 0) then Some(0)
    else if |s| <= |pat| then None
    else
      match IndexOf(s[1..], pat)
      case Some(j) => Some(j + 1)
      case None => None
  }

  lemma ShiftOccurs(pat: string, s: string, k: nat)
    requires s != []
    ensures OccursAt(pat, s, k + 1) <==> OccursAt(pat, s[1..], k)
  {
    if k + 1 + |pat| <= |s| { assert s[1..][k..k + |pat|] == s[k + 1..k + 1 + |pat|]; }
  }

  /** `IndexOf` finds the first occurrence, and finds one whenever there is one. */
  lemma {:induction false} IndexOfFirst(s: string, pat: string)
    ensures IndexOf(s, pat).Some? ==> OccursAt(pat, s, IndexOf(s, pat).value)
    ensures IndexOf(s, pat).Some? ==> forall k: nat :: k < IndexOf(s, pat).value ==> !OccursAt(pat, s, k)
    ensures IndexOf(s, pat).None? <==> !Contains(s, pat)
    decreases |s|
  {
    if OccursAt(pat, s, 0) {
    } else if |s| <= |pat| {
      assert forall k: nat :: !OccursAt(pat, s, k);
    } else {
      IndexOfFirst(s[1..], pat);
      forall k: nat ensures OccursAt(pat, s, k + 1) <==> OccursAt(pat, s[1..], k) {
        ShiftOccurs(pat, s, k);
      }
      if !Contains(s[1..], pat) {
        forall k: nat | k <= |s| ensures !OccursAt(pat, s, k) {
          if k > 0 { assert !OccursAt(pat, s[1..], k - 1); }
        }
      } else {
        var j := IndexOf(s[1..], pat).value;
        forall k: nat | k < j + 1 ensures !OccursAt(pat, s, k) {
          if k > 0 { assert !OccursAt(pat, s[1..], k - 1); }
        }
      }
    }
  }

  /** `s.replace(pat, rep)` for a string pattern: only the first occurrence is
      replaced, and `s` is returned unchanged when `pat` does not occur. */
  function ReplaceFirst(s: string, pat: string, rep: string): string {
    match IndexOf(s, pat)
    case None => s
    case Some(k) => s[..k] + rep + s[k + |pat|..]
  }

  lemma ReplaceFirstSpec(s: string, pat: string, rep: string)
    ensures !Contains(s, pat) ==> ReplaceFirst(s, pat, rep) == s
    ensures Contains(s, pat) ==>
      exists k: nat :: OccursAt(pat, s, k)
        && (forall i: nat :: i < k ==> !OccursAt(pat, s, i))
        && ReplaceFirst(s, pat, rep) == s[..k] + rep + s[k + |pat|..]
  {
    IndexOfFirst(s, pat);
  }

  /** The test `/^https?:\/\//`: an absolute http or https URL. */
  predicate IsHttpUrl(s: string) {
    IsPrefix("http://", s) || IsPrefix("https://", s)
  }

  /** A pattern at the very start is the one replaced. */
  lemma ReplaceAtStart(pat: string, rest: string, rep: string)
    ensures Contains(pat + rest, pat)
    ensures ReplaceFirst(pat + rest, pat, rep) == rep + rest
  {
    var s := pat + rest;
    assert OccursAt(pat, s, 0) by { assert s[..|pat|] == pat; }
    assert IndexOf(s, pat) == Some(0);
    assert s[..0] + rep + s[|pat|..] == rep + rest;
  }

  /** `parts.join(sep)`. */
  function Join(parts: seq<string>, sep: string): string {
    if |parts| == 0 then ""
    else if |parts| == 1 then parts[0]
    else parts[0] + sep + Join(parts[1..], sep)
  }
}
