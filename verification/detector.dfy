/** The EPIC-update detector (`GitHubIssueCrawler.is_epic_update_comment`):
    a comment is an update when it contains one of three fixed markers, case
    ignored. */
module Detector {
  import opened Text

  const TemplateMarker: string := "<!-- epic-update-template -->"
  const HeadingMarker: string := "## \U{1F680} Epic Update"
  const TriggerMarker: string := "@epic-update"

  const Markers: seq<string> := [TemplateMarker, HeadingMarker, TriggerMarker]

  /** `p` occurs somewhere in `s` when ASCII letter case is ignored. */
  predicate ContainsIgnoringCase(s: string, p: string) {
    Contains(Upper(s), Upper(p))
  }

  /** The detector's meaning: some marker occurs in the comment, case ignored. */
  predicate IsEpicUpdateComment(body: string) {
    exists k :: 0 <= k < |Markers| && ContainsIgnoringCase(body, Markers[k])
  }

  /** Whether `p` occurs in `s` at position `i`, case ignored, comparing
      character by character. */
  method MatchesAt(s: string, p: string, i: nat) returns (b: bool)
    requires i + |p| <= |s|
    ensures b <==> OccursAt(Upper(s), Upper(p), i)
  {
    var j := 0;
    while j < |p|
      invariant 0 <= j <= |p|
      invariant forall k :: 0 <= k < j ==> UpperChar(s[i + k]) == UpperChar(p[k])
    {
      if UpperChar(s[i + j]) != UpperChar(p[j]) {
        assert Upper(s)[i..i + |p|][j] != Upper(p)[j];
        return false;
      }
      j := j + 1;
    }
    assert Upper(s)[i..i + |p|] == Upper(p);
    return true;
  }

  /** Case-insensitive substring search: tries every start position. */
  method SearchIgnoringCase(s: string, p: string) returns (found: bool)
    ensures found <==> ContainsIgnoringCase(s, p)
  {
    if |p| > |s| {
      return false;
    }
    var i := 0;
    while i <= |s| - |p|
      invariant 0 <= i <= |s| - |p| + 1
      invariant forall k :: 0 <= k < i ==> !OccursAt(Upper(s), Upper(p), k)
    {
      var b := MatchesAt(s, p, i);
      if b {
        return true;
      }
      i := i + 1;
    }
    return false;
  }

  /** `is_epic_update_comment`: searches for each marker in turn and answers
      exactly the detector's meaning. */
  method DetectEpicUpdate(body: string) returns (found: bool)
    ensures found <==> IsEpicUpdateComment(body)
  {
    var k := 0;
    while k < |Markers|
      invariant 0 <= k <= |Markers|
      invariant forall m :: 0 <= m < k ==> !ContainsIgnoringCase(body, Markers[m])
    {
      var b := SearchIgnoringCase(body, Markers[k]);
      if b {
        return true;
      }
      k := k + 1;
    }
    return false;
  }

  /** Upper-casing is idempotent. */
  lemma UpperIdempotent(s: string)
    ensures Upper(Upper(s)) == Upper(s)
  {
  }

  /** Upper-casing the comment before a case-insensitive search, as the
      detector does, changes no answer. */
  lemma UpperedSearch(s: string, p: string)
    ensures ContainsIgnoringCase(Upper(s), p) <==> ContainsIgnoringCase(s, p)
  {
    UpperIdempotent(s);
  }

  /** A comment containing a marker verbatim is detected, wherever it sits. */
  lemma MarkerDetected(before: string, k: nat, after: string)
    requires k < |Markers|
    ensures IsEpicUpdateComment(before + Markers[k] + after)
  {
    var s := before + Markers[k] + after;
    assert Upper(s)[|before|..|before| + |Markers[k]|] == Upper(Markers[k]);
    assert OccursAt(Upper(s), Upper(Markers[k]), |before|);
  }

  /** A comment with none of the markers' first characters (`<`, `#`, `@`)
      is never detected; in particular the empty comment is not. */
  lemma NoMarkerStart(body: string)
    requires forall i :: 0 <= i < |body| ==> body[i] != '<' && body[i] != '#' && body[i] != '@'
    ensures !IsEpicUpdateComment(body)
  {
    forall k | 0 <= k < |Markers|
      ensures !ContainsIgnoringCase(body, Markers[k])
    {
      var c := Upper(Markers[k])[0];
      assert c == '<' || c == '#' || c == '@';
      assert forall i :: 0 <= i < |body| ==> Upper(body)[i] != c;
    }
  }
}
