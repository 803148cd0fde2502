/** `generate_board_report`: the board report in its three modes. Each mode
    first builds a structured view of the updates, which is then rendered as
    Markdown. */
module BoardReport {
  import opened Wrappers
  import opened Text
  import opened Parser
  import opened Records
  import opened Ranking


  // ---------------------------------------------------------------------------
  // Grouping by issue
  // ---------------------------------------------------------------------------

  /** One issue's updates, in input order. */
  datatype Group = Group(number: int, updates: seq<Update>)

  function OfIssue(us: seq<Update>, n: int): seq<Update> {
    Filter((u: Update) => u.issueNumber == n, us)
  }

  /** The executive mode's `issues` dict: one group per distinct issue
      number, in order of first appearance. */
  function GroupByIssue(us: seq<Update>): (gs: seq<Group>)
    ensures |gs| == |Distinct(IssueNumbers(us))|
    ensures forall g :: 0 <= g < |gs| ==> gs[g] == Group(Distinct(IssueNumbers(us))[g], OfIssue(us, Distinct(IssueNumbers(us))[g]))
  {
    var ks := Distinct(IssueNumbers(us));
    seq(|ks|, g requires 0 <= g < |ks| => Group(ks[g], OfIssue(us, ks[g])))
  }

  /** The groups follow the issues' first appearances. */
  lemma GroupOrder(us: seq<Update>)
    ensures var gs := GroupByIssue(us);
      forall g, h :: 0 <= g < h < |gs| ==>
        FirstIndex(IssueNumbers(us), gs[g].number) < FirstIndex(IssueNumbers(us), gs[h].number)
  {
    DistinctOrder(IssueNumbers(us));
  }

  /** Each group holds exactly its issue's updates, and none is empty. */
  lemma GroupContents(us: seq<Update>)
    ensures var gs := GroupByIssue(us);
      forall g :: 0 <= g < |gs| ==> |gs[g].updates| > 0
    ensures var gs := GroupByIssue(us);
      forall g, i :: 0 <= g < |gs| && 0 <= i < |us| ==>
        (us[i] in gs[g].updates <==> us[i].issueNumber == gs[g].number)
    ensures var gs := GroupByIssue(us);
      forall g, j :: 0 <= g < |gs| && 0 <= j < |gs[g].updates| ==>
        gs[g].updates[j] in us && gs[g].updates[j].issueNumber == gs[g].number
  {
    var gs := GroupByIssue(us);
    var ns := IssueNumbers(us);
    var ks := Distinct(ns);
    forall g | 0 <= g < |gs|
      ensures |gs[g].updates| > 0
    {
      var i := FirstIndex(ns, ks[g]);
      assert us[i].issueNumber == ks[g];
      assert us[i] in gs[g].updates;
    }
    forall g, i | 0 <= g < |gs| && 0 <= i < |us| && us[i] in gs[g].updates
      ensures us[i].issueNumber == gs[g].number
    {
      var j :| 0 <= j < |gs[g].updates| && gs[g].updates[j] == us[i];
    }
  }

  /** Every update belongs to exactly one group. */
  lemma GroupPartition(us: seq<Update>)
    ensures var gs := GroupByIssue(us);
      forall i :: 0 <= i < |us| ==> exists g :: 0 <= g < |gs| && us[i] in gs[g].updates
    ensures var gs := GroupByIssue(us);
      forall i, g, h ::
        (&& 0 <= i < |us| && 0 <= g < |gs| && 0 <= h < |gs|
         && us[i] in gs[g].updates && us[i] in gs[h].updates) ==> g == h
  {
    var gs := GroupByIssue(us);
    var ns := IssueNumbers(us);
    var ks := Distinct(ns);
    GroupContents(us);
    forall i | 0 <= i < |us|
      ensures exists g :: 0 <= g < |gs| && us[i] in gs[g].updates
    {
      assert ns[i] in ks;
      var g :| 0 <= g < |ks| && ks[g] == ns[i];
      assert us[i] in gs[g].updates;
    }
  }

  // ---------------------------------------------------------------------------
  // The executive view
  // ---------------------------------------------------------------------------

  /** The update shown for a group: `max(updates, key=created_at)`. */
  function Latest(g: seq<Update>): Update
    requires |g| > 0
  {
    g[MaxIndex(Stamps(g))]
  }

  /** The shown update is one of the group's, no update of the group has a
      larger timestamp, and every update before it has a strictly smaller
      one: the first of equally recent updates wins. */
  lemma LatestSpec(g: seq<Update>)
    requires |g| > 0
    ensures exists m :: (&& 0 <= m < |g| && g[m] == Latest(g)
                         && (forall j :: 0 <= j < |g| ==> !StrLess(Latest(g).createdAt, g[j].createdAt))
                         && (forall j :: 0 <= j < m ==> StrLess(g[j].createdAt, Latest(g).createdAt)))
  {
    var m := MaxIndex(Stamps(g));
    MaxIndexSpec(Stamps(g));
    assert g[m] == Latest(g);
  }

  /** How many items of each list the executive mode shows. */
  const RecentCap: nat := 3
  const RiskCap: nat := 2
  const NextCap: nat := 3

  /** How many body lines the fallback inspects. */
  const ExcerptWindow: nat := 10

  /** What the executive mode shows about the latest update: the structured
      fields, or a raw excerpt when the update carries no parsed data. */
  datatype Detail =
    | Structured(epic: string, owner: string, status: string, progress: string,
                 recent: seq<string>, risks: seq<string>, next: seq<string>)
    | Excerpt(lines: seq<string>)

  /** One issue's entry in the executive mode. */
  datatype Digest = Digest(number: int, title: string, day: string, author: string, detail: Detail)

  /** The fallback's capture: it starts at a line `isHeading` accepts,
      keeps the following lines that are not blank (and any further heading
      line), and stops at the first blank line after it starts. */
  function Capture(isHeading: string -> bool, isBlank: string -> bool, lines: seq<string>, capturing: bool): seq<string> {
    if |lines| == 0 then []
    else if isHeading(lines[0]) then [lines[0]] + Capture(isHeading, isBlank, lines[1..], true)
    else if capturing && !isBlank(lines[0]) then [lines[0]] + Capture(isHeading, isBlank, lines[1..], true)
    else if capturing then []
    else Capture(isHeading, isBlank, lines[1..], false)
  }

  /** Without a heading line there is nothing to capture. */
  lemma {:induction false} CaptureNone(isHeading: string -> bool, isBlank: string -> bool, lines: seq<string>)
    requires forall i :: 0 <= i < |lines| ==> !isHeading(lines[i])
    ensures Capture(isHeading, isBlank, lines, false) == []
  {
    if |lines| > 0 {
      CaptureNone(isHeading, isBlank, lines[1..]);
    }
  }

  /** Once capturing, the capture is the run of lines up to the first blank
      line that is not a heading. */
  lemma {:induction false} CaptureRun(isHeading: string -> bool, isBlank: string -> bool, lines: seq<string>, e: nat)
    requires e <= |lines|
    requires forall i :: 0 <= i < e ==> !isBlank(lines[i]) || isHeading(lines[i])
    requires e == |lines| || (isBlank(lines[e]) && !isHeading(lines[e]))
    ensures Capture(isHeading, isBlank, lines, true) == lines[..e]
  {
    if |lines| > 0 && e > 0 {
      CaptureRun(isHeading, isBlank, lines[1..], e - 1);
      assert lines[..e] == [lines[0]] + lines[1..][..e - 1];
    }
  }

  /** The capture starts at the first heading line `s` and runs to the first
      blank line `e` after it (or the end). */
  lemma {:induction false} CaptureFrom(isHeading: string -> bool, isBlank: string -> bool, lines: seq<string>, s: nat, e: nat)
    requires s < e <= |lines| && isHeading(lines[s])
    requires forall i :: 0 <= i < s ==> !isHeading(lines[i])
    requires forall i :: s < i < e ==> !isBlank(lines[i]) || isHeading(lines[i])
    requires e == |lines| || (isBlank(lines[e]) && !isHeading(lines[e]))
    ensures Capture(isHeading, isBlank, lines, false) == lines[s..e]
  {
    if s > 0 {
      CaptureFrom(isHeading, isBlank, lines[1..], s - 1, e - 1);
      assert lines[1..][s - 1..e - 1] == lines[s..e];
    } else {
      CaptureRun(isHeading, isBlank, lines[1..], e - 1);
      assert lines[..e] == [lines[0]] + lines[1..][..e - 1];
    }
  }

  const UpdatePatterns: seq<string> := ["EPIC UPDATE", "BOARD UPDATE", "EXECUTIVE UPDATE"]

  /** The fallback's start test: the upper-cased line contains one of the
      patterns. */
  predicate IsUpdateHeading(line: string) {
    exists k :: 0 <= k < |UpdatePatterns| && Contains(Upper(line), UpdatePatterns[k])
  }

  /** A line `strip()` leaves empty. */
  predicate IsBlank(line: string) {
    Strip(line) == ""
  }

  /** The lines the fallback inspects: the first ten of the body. */
  function Window(body: string): seq<string> {
    Take(Split(body, '\n'), ExcerptWindow)
  }

  /** The fallback excerpt: the capture over the first ten body lines. */
  function BodyExcerpt(body: string): seq<string> {
    Capture(IsUpdateHeading, IsBlank, Window(body), false)
  }

  function DetailOf(u: Update): Detail {
    match u.parsed
    case Some(p) =>
      Structured(p.epicName, p.owner, p.status, p.progress,
                 Take(p.whatHappened, RecentCap), Take(p.risksBlockers, RiskCap), Take(p.nextSteps, NextCap))
    case None => Excerpt(BodyExcerpt(u.body))
  }

  function DigestOf(g: Group): Digest
    requires |g.updates| > 0
  {
    var u := Latest(g.updates);
    Digest(g.number, u.issueTitle, Prefix(u.createdAt, 10), u.author, DetailOf(u))
  }

  /** The structured details show the first three recent-progress items, the
      first two risks and the first three next steps (all of a shorter list),
      and a list is shown empty only when the parsed list is empty. */
  lemma DetailCaps(u: Update)
    requires u.parsed.Some?
    ensures var d := DetailOf(u); var p := u.parsed.value;
      && d.Structured?
      && d.epic == p.epicName && d.owner == p.owner && d.status == p.status && d.progress == p.progress
      && |d.recent| == (if |p.whatHappened| <= RecentCap then |p.whatHappened| else RecentCap) && d.recent == p.whatHappened[..|d.recent|] && (d.recent == [] <==> p.whatHappened == [])
      && |d.risks| == (if |p.risksBlockers| <= RiskCap then |p.risksBlockers| else RiskCap) && d.risks == p.risksBlockers[..|d.risks|] && (d.risks == [] <==> p.risksBlockers == [])
      && |d.next| == (if |p.nextSteps| <= NextCap then |p.nextSteps| else NextCap) && d.next == p.nextSteps[..|d.next|] && (d.next == [] <==> p.nextSteps == [])
  {
  }

  /** Without parsed data, nothing is shown unless one of the first ten
      lines is an update heading. */
  lemma ExcerptNone(u: Update)
    requires u.parsed.None?
    requires forall i :: 0 <= i < |Window(u.body)| ==> !IsUpdateHeading(Window(u.body)[i])
    ensures DetailOf(u) == Excerpt([])
  {
    CaptureNone(IsUpdateHeading, IsBlank, Window(u.body));
    assert BodyExcerpt(u.body) == [];
  }

  /** Without parsed data, the excerpt is the run of lines from the first
      heading line among the first ten up to the next blank line. */
  lemma ExcerptRun(u: Update, s: nat, e: nat)
    requires u.parsed.None?
    requires s < e <= |Window(u.body)| && IsUpdateHeading(Window(u.body)[s])
    requires forall i :: 0 <= i < s ==> !IsUpdateHeading(Window(u.body)[i])
    requires forall i :: s < i < e ==> !IsBlank(Window(u.body)[i])
    requires e == |Window(u.body)| || IsBlank(Window(u.body)[e])
    ensures DetailOf(u) == Excerpt(Window(u.body)[s..e])
  {
    var lines := Window(u.body);
    if e < |lines| {
      BlankIsNoHeading(lines[e]);
    }
    CaptureFrom(IsUpdateHeading, IsBlank, lines, s, e);
    assert BodyExcerpt(u.body) == lines[s..e];
  }

  /** No pattern occurs in an all-space string. */
  lemma NoPatternInSpace(t: string, p: string)
    requires AllSpace(t) && |p| > 0 && !IsSpace(p[0])
    ensures !Contains(t, p)
  {
    forall i | 0 <= i <= |t| - |p|
      ensures !OccursAt(t, p, i)
    {
      assert t[i..i + |p|][0] == t[i];
    }
  }

  /** A blank line contains no pattern. */
  lemma BlankIsNoHeading(line: string)
    requires IsBlank(line)
    ensures !IsUpdateHeading(line)
  {
    StripEmptyIff(line);
    assert AllSpace(Upper(line));
    forall k | 0 <= k < |UpdatePatterns|
      ensures !Contains(Upper(line), UpdatePatterns[k])
    {
      NoPatternInSpace(Upper(line), UpdatePatterns[k]);
    }
  }

  // ---------------------------------------------------------------------------
  // The three modes
  // ---------------------------------------------------------------------------

  datatype Mode = SummaryMode | ExecutiveMode | DetailedMode

  /** `format_type`: any string other than `summary` and `executive` selects
      the detailed mode. */
  function ModeOf(formatType: string): Mode {
    if formatType == "summary" then SummaryMode
    else if formatType == "executive" then ExecutiveMode
    else DetailedMode
  }

  datatype View =
    | SummaryView(totalUpdates: int, activeIssues: nat, contributors: nat)
    | ExecutiveView(digests: seq<Digest>)
    | DetailedView(blocks: seq<Update>)

  function ViewOf(b: Batch, mode: Mode): View {
    match mode
    case SummaryMode => SummaryView(b.totalUpdates, |Distinct(IssueNumbers(b.updates))|, |Distinct(Authors(b.updates))|)
    case ExecutiveMode =>
      var gs := GroupByIssue(b.updates);
      GroupContents(b.updates);
      ExecutiveView(seq(|gs|, g requires 0 <= g < |gs| => DigestOf(gs[g])))
    case DetailedMode => DetailedView(b.updates)
  }

  /** The summary mode echoes the reported total and counts the distinct
      issue numbers and the distinct authors (`len(set(...))`). */
  lemma SummaryCounts(b: Batch)
    ensures var v := ViewOf(b, SummaryMode);
      && v.totalUpdates == b.totalUpdates
      && v.activeIssues == |set n | n in IssueNumbers(b.updates)|
      && v.contributors == |set a | a in Authors(b.updates)|
  {
    DistinctCard(IssueNumbers(b.updates));
    DistinctCard(Authors(b.updates));
  }

  /** The executive mode shows one digest per issue, in order of first
      appearance, each about the group's latest update. */
  lemma ExecutiveDigests(b: Batch)
    ensures var v := ViewOf(b, ExecutiveMode); var gs := GroupByIssue(b.updates);
      && |v.digests| == |Distinct(IssueNumbers(b.updates))|
      && forall g :: 0 <= g < |gs| ==>
           var u := Latest(gs[g].updates);
           && v.digests[g].number == Distinct(IssueNumbers(b.updates))[g]
           && u in b.updates && u.issueNumber == v.digests[g].number
           && v.digests[g].author == u.author && v.digests[g].day == Prefix(u.createdAt, 10)
           && v.digests[g].detail == DetailOf(u)
  {
    var gs := GroupByIssue(b.updates);
    GroupContents(b.updates);
    forall g | 0 <= g < |gs|
      ensures Latest(gs[g].updates) in gs[g].updates
    {
      LatestSpec(gs[g].updates);
    }
  }

  /** The detailed mode, also used for unknown formats, shows every update
      once, in input order. */
  lemma DetailedBlocks(b: Batch, formatType: string)
    requires formatType != "summary" && formatType != "executive"
    ensures ViewOf(b, ModeOf(formatType)) == DetailedView(b.updates)
  {
  }

  // ---------------------------------------------------------------------------
  // Rendering
  // ---------------------------------------------------------------------------

  function Bullets(items: seq<string>): string {
    if |items| == 0 then "" else "- " + items[0] + "\n" + Bullets(items[1..])
  }

  /** A titled list, left out entirely when the list is empty. */
  function ListSection(title: string, items: seq<string>): string {
    if |items| == 0 then "" else title + "\n" + Bullets(items) + "\n"
  }

  function RenderDetail(d: Detail): string {
    match d
    case Structured(epic, owner, status, progress, recent, risks, next) =>
      "**Epic:** " + epic + "\n"
      + "**Owner:** " + owner + "\n"
      + "**Status:** " + status + "\n"
      + "**Progress:** " + progress + "\n\n"
      + ListSection("**Recent Progress:**", recent)
      + ListSection("**Risks/Blockers:**", risks)
      + ListSection("**Next Steps:**", next)
    case Excerpt(lines) =>
      if |lines| == 0 then ""
      else "**Update Summary:**\n" + "```\n" + Join(lines, '\n') + "\n```\n\n"
  }

  function RenderDigests(ds: seq<Digest>): string {
    if |ds| == 0 then ""
    else
      var d := ds[0];
      "### Issue #" + IntToString(d.number) + ": " + d.title + "\n"
      + "**Latest Update:** " + d.day + " by @" + d.author + "\n\n"
      + RenderDetail(d.detail)
      + RenderDigests(ds[1..])
  }

  function RenderBlocks(us: seq<Update>): string {
    if |us| == 0 then ""
    else
      var u := us[0];
      "### Issue #" + IntToString(u.issueNumber) + ": " + u.issueTitle + "\n"
      + "**Author:** @" + u.author + "\n"
      + "**Date:** " + u.createdAt + "\n\n"
      + "**Full Update:**\n"
      + "```\n" + u.body + "\n```\n\n"
      + "---\n\n"
      + RenderBlocks(us[1..])
  }

  function RenderView(v: View): string {
    match v
    case SummaryView(total, active, contributors) =>
      "## Executive Summary\n\n"
      + "- **Total EPIC Updates:** " + IntToString(total) + "\n"
      + "- **Active Issues:** " + IntToString(active) + "\n"
      + "- **Contributors:** " + IntToString(contributors) + "\n\n"
    case ExecutiveView(ds) => "## Key EPIC Updates\n\n" + RenderDigests(ds)
    case DetailedView(us) => "## Detailed EPIC Updates\n\n" + RenderBlocks(us)
  }

  /** The report's title block. */
  function BoardHeader(b: Batch, generated: string): (h: string)
    ensures |h| > 0 && h[0] == '#'
  {
    "#EPIC Update Report\n\n"
    + "**Generated:** " + generated + "\n"
    + "**Repository:** " + b.repo + "\n"
    + "**Period:** Last " + IntToString(b.daysBack) + " days\n"
    + "**Total Updates:** " + IntToString(b.totalUpdates) + "\n\n"
  }

  /** `generate_board_report` on a batch; `generated` is the timestamp the
      program reads from the clock. The sentinel is returned exactly when
      there are no updates. */
  function GenerateBoardReport(b: Batch, formatType: string, generated: string): (r: string)
    ensures r == NoUpdatesForPeriod <==> |b.updates| == 0
  {
    if |b.updates| == 0 then NoUpdatesForPeriod
    else
      var h := BoardHeader(b, generated);
      var r := h + RenderView(ViewOf(b, ModeOf(formatType)));
      SentinelStart();
      assert r[0] == '#';
      r
  }
}
