/** The JavaScript string operations the sync pass applies to event summaries:
    `includes`, `replace` of the first occurrence of a literal, and `trim`. */
module Text {
  import opened Base

  /** `pat` occurs in `s` starting at index `i`. */
  predicate OccursAt(s: string, pat: string, i: nat)
  {
    i + |pat| <= |s| && s[i..i + |pat|] == pat
  }

  /** The first occurrence of `pat` in `s` at or after `i`. */
  function FindFrom(s: string, pat: string, i: nat): (r: Option<nat>)
    requires i <= |s|
    decreases |s| - i
    ensures r.Some? ==> i <= r.value && OccursAt(s, pat, r.value)
    ensures r.Some? ==> forall j :: i <= j < r.value ==> !OccursAt(s, pat, j)
    ensures r.None? ==> forall j :: i <= j <= |s| ==> !OccursAt(s, pat, j)
  {
    if OccursAt(s, pat, i) then Some(i)
    else if i == |s| then None
    else FindFrom(s, pat, i + 1)
  }

  /** `s.indexOf(pat)`, with `None` for -1. */
  function IndexOf(s: string, pat: string): (r: Option<nat>)
    ensures r.Some? ==> OccursAt(s, pat, r.value) && forall j :: 0 <= j < r.value ==> !OccursAt(s, pat, j)
    ensures r.None? <==> forall j :: 0 <= j <= |s| ==> !OccursAt(s, pat, j)
  {
    FindFrom(s, pat, 0)
  }

  /** `s.includes(pat)`. */
  predicate Contains(s: string, pat: string)
  {
    IndexOf(s, pat).Some?
  }

  /** `s.replace(pat, "")`: the first occurrence of `pat`, if any, is cut out. */
  function RemoveFirst(s: string, pat: string): (r: string)
    ensures !Contains(s, pat) ==> r == s
    ensures Contains(s, pat) ==> |r| == |s| - |pat|
  {
    match IndexOf(s, pat)
    case None => s
    case Some(i) => s[..i] + s[i + |pat|..]
  }

  /** Putting `pat` back where it was cut out restores `s`. */
  lemma RemoveFirstRestores(s: string, pat: string)
    requires Contains(s, pat)
    ensures var i := IndexOf(s, pat).value;
            s == RemoveFirst(s, pat)[..i] + pat + RemoveFirst(s, pat)[i..]
  {
    var i := IndexOf(s, pat).value;
    var r := RemoveFirst(s, pat);
    assert r == s[..i] + s[i + |pat|..];
    assert r[..i] == s[..i];
    assert r[i..] == s[i + |pat|..];
    assert s == s[..i] + s[i..i + |pat|] + s[i + |pat|..];
  }

  /** The characters JavaScript's `trim` removes: WhiteSpace and LineTerminator. */
  const JS_SPACES: set<char> :=
    { '\t', '\n', '\U{000B}', '\U{000C}', '\r', ' ', '\U{00A0}', '\U{1680}',
      '\U{2000}', '\U{2001}', '\U{2002}', '\U{2003}', '\U{2004}', '\U{2005}',
      '\U{2006}', '\U{2007}', '\U{2008}', '\U{2009}', '\U{200A}',
      '\U{2028}', '\U{2029}', '\U{202F}', '\U{205F}', '\U{3000}', '\U{FEFF}' }

  predicate IsJsSpace(c: char)
  {
    c in JS_SPACES
  }

  predicate AllSpace(s: string)
  {
    forall i :: 0 <= i < |s| ==> IsJsSpace(s[i])
  }

  /** Every character of `s[lo..hi]` is white space. */
  predicate SpacesIn(s: string, lo: int, hi: int)
    requires 0 <= lo <= hi <= |s|
  {
    forall j :: lo <= j < hi ==> IsJsSpace(s[j])
  }

  /** The index of the first character at or after `i` that is not white space. */
  function SkipStart(s: string, i: nat): (k: nat)
    requires i <= |s|
    decreases |s| - i
    ensures i <= k <= |s| && SpacesIn(s, i, k)
    ensures k == |s| || !IsJsSpace(s[k])
  {
    if i < |s| && IsJsSpace(s[i]) then SkipStart(s, i + 1) else i
  }

  /** The index just past the last character before `j`, and at or after `lo`, that is not white space. */
  function SkipEnd(s: string, lo: nat, j: nat): (k: nat)
    requires lo <= j <= |s|
    decreases j
    ensures lo <= k <= j && SpacesIn(s, k, j)
    ensures k == lo || !IsJsSpace(s[k - 1])
  {
    if lo < j && IsJsSpace(s[j - 1]) then SkipEnd(s, lo, j - 1) else j
  }

  /** `s.trim()`: the infix of `s` left when white space is removed from both ends. */
  function Trim(s: string): (r: string)
    ensures exists lo, hi :: 0 <= lo <= hi <= |s| && r == s[lo..hi] && SpacesIn(s, 0, lo) && SpacesIn(s, hi, |s|)
    ensures r == [] || (!IsJsSpace(r[0]) && !IsJsSpace(r[|r| - 1]))
    ensures r == [] <==> AllSpace(s)
  {
    var lo := SkipStart(s, 0);
    var hi := SkipEnd(s, lo, |s|);
    var r := s[lo..hi];
    assert r != [] ==> r[0] == s[lo] && r[|r| - 1] == s[hi - 1];
    r
  }
}
