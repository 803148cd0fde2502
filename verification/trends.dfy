/** `analyze_epic_trends`: frequency statistics over a batch of updates,
    built as a structured value and then rendered as Markdown. */
module Trends {
  import opened Text
  import opened Records
  import opened Ranking

  /** The reply when there is nothing to analyse. */
  const NoUpdatesForAnalysis: string := "No EPIC updates found for analysis."

  /** How many entries each top list holds (`most_common(5)`). */
  const TopCount: nat := 5

  /** The calendar day of each update: the first ten characters of
      `created_at`. */
  function Days(us: seq<Update>): (ds: seq<string>)
    ensures |ds| == |us| && forall i :: 0 <= i < |us| ==> ds[i] == Prefix(us[i].createdAt, 10)
  {
    seq(|us|, i requires 0 <= i < |us| => Prefix(us[i].createdAt, 10))
  }

  /** The title of the first update about issue `n` (the `next(...)` over
      the updates); empty when there is none. */
  function FirstTitle(us: seq<Update>, n: int): string {
    if |us| == 0 then ""
    else if us[0].issueNumber == n then us[0].issueTitle
    else FirstTitle(us[1..], n)
  }

  /** `FirstTitle` is the title of the first update about the issue. */
  lemma {:induction false} FirstTitleSpec(us: seq<Update>, n: int)
    requires n in IssueNumbers(us)
    ensures exists j :: (&& 0 <= j < |us| && us[j].issueNumber == n && FirstTitle(us, n) == us[j].issueTitle
                         && forall k :: 0 <= k < j ==> us[k].issueNumber != n)
  {
    if us[0].issueNumber != n {
      assert n in IssueNumbers(us[1..]) by {
        var i :| 0 <= i < |us| && us[i].issueNumber == n;
        assert us[1..][i - 1] == us[i];
      }
      FirstTitleSpec(us[1..], n);
      var j :| (&& 0 <= j < |us[1..]| && us[1..][j].issueNumber == n && FirstTitle(us[1..], n) == us[1..][j].issueTitle
                && forall k :: 0 <= k < j ==> us[1..][k].issueNumber != n);
      assert forall k :: 1 <= k < j + 1 ==> us[k] == us[1..][k - 1];
    } else {
      assert us[0].issueNumber == n && FirstTitle(us, n) == us[0].issueTitle;
    }
  }

  datatype IssueActivity = IssueActivity(number: int, count: nat, title: string)

  /** Everything the analysis reports. */
  datatype TrendView = TrendView(
    totalUpdates: nat,
    uniqueIssues: nat,
    contributors: nat,
    activeDays: nat,
    topContributors: seq<(string, nat)>,
    activeIssues: seq<IssueActivity>,
    busiest: seq<(string, nat)>)

  /** The most active issues with their counts and titles. */
  function Activities(us: seq<Update>, top: seq<(int, nat)>): (r: seq<IssueActivity>)
    ensures |r| == |top|
    ensures forall i :: 0 <= i < |top| ==>
      r[i].number == top[i].0 && r[i].count == top[i].1 && r[i].title == FirstTitle(us, top[i].0)
  {
    if |top| == 0 then []
    else [IssueActivity(top[0].0, top[0].1, FirstTitle(us, top[0].0))] + Activities(us, top[1..])
  }

  function TopContributorsOf(us: seq<Update>): seq<(string, nat)> {
    MostCommon(Authors(us), TopCount)
  }

  function ActiveIssuesOf(us: seq<Update>): seq<IssueActivity> {
    Activities(us, MostCommon(IssueNumbers(us), TopCount))
  }

  function BusiestOf(us: seq<Update>): seq<(string, nat)> {
    MostCommon(Days(us), 1)
  }

  function TrendsOf(us: seq<Update>): TrendView {
    TrendView(
      |us|,
      |Distinct(IssueNumbers(us))|,
      |Distinct(Authors(us))|,
      |Distinct(Days(us))|,
      TopContributorsOf(us),
      ActiveIssuesOf(us),
      BusiestOf(us))
  }

  /** The total is recomputed from the list; the unique-issue, contributor
      and active-day figures count distinct issue numbers, authors and days
      (the last is the divisor of the average daily updates). */
  lemma TrendTotals(us: seq<Update>)
    ensures TrendsOf(us).totalUpdates == |us|
    ensures TrendsOf(us).uniqueIssues == |set n | n in IssueNumbers(us)|
    ensures TrendsOf(us).contributors == |set a | a in Authors(us)|
    ensures TrendsOf(us).activeDays == |set d | d in Days(us)|
  {
    DistinctCard(IssueNumbers(us));
    DistinctCard(Authors(us));
    DistinctCard(Days(us));
  }

  /** The top contributors: at most five authors, each with the number of
      updates they wrote, more prolific first and ties by first appearance. */
  lemma TopContributors(us: seq<Update>)
    ensures var top := TopContributorsOf(us);
      && |top| == (if |Distinct(Authors(us))| <= TopCount then |Distinct(Authors(us))| else TopCount)
      && (forall i :: 0 <= i < |top| ==> top[i].0 in Authors(us) && top[i].1 == Count(Authors(us), top[i].0))
    ensures var top := TopContributorsOf(us);
      forall i, j :: 0 <= i < j < |top| ==> Precedes(Authors(us), top[i].0, top[j].0)
  {
    MostCommonOrder(Authors(us), TopCount);
  }

  /** An author left out of the top contributors wrote no more updates than
      any listed one, and if as many, appeared later. */
  lemma ContributorLeftOut(us: seq<Update>, a: string)
    requires a in Authors(us)
    requires forall i :: 0 <= i < |TopContributorsOf(us)| ==> TopContributorsOf(us)[i].0 != a
    ensures forall i :: 0 <= i < |TopContributorsOf(us)| ==>
      Precedes(Authors(us), TopContributorsOf(us)[i].0, a)
  {
    assert TopContributorsOf(us) == MostCommon(Authors(us), TopCount);
    MostCommonTop(Authors(us), TopCount, a);
  }

  /** The most active issues: at most five, each with its number of
      updates, more active first and ties by first appearance. */
  lemma MostActiveIssues(us: seq<Update>)
    ensures var top := ActiveIssuesOf(us);
      && |top| == (if |Distinct(IssueNumbers(us))| <= TopCount then |Distinct(IssueNumbers(us))| else TopCount)
      && (forall i :: 0 <= i < |top| ==>
            top[i].number in IssueNumbers(us) && top[i].count == Count(IssueNumbers(us), top[i].number))
    ensures var top := ActiveIssuesOf(us);
      forall i, j :: 0 <= i < j < |top| ==> Precedes(IssueNumbers(us), top[i].number, top[j].number)
  {
    var top := MostCommon(IssueNumbers(us), TopCount);
    MostCommonOrder(IssueNumbers(us), TopCount);
  }

  /** An issue left out of the most active ones has no more updates than any
      listed one, and if as many, appeared later. */
  lemma IssueLeftOut(us: seq<Update>, n: int)
    requires n in IssueNumbers(us)
    requires forall i :: 0 <= i < |ActiveIssuesOf(us)| ==> ActiveIssuesOf(us)[i].number != n
    ensures forall i :: 0 <= i < |ActiveIssuesOf(us)| ==>
      Precedes(IssueNumbers(us), ActiveIssuesOf(us)[i].number, n)
  {
    var top := MostCommon(IssueNumbers(us), TopCount);
    assert forall i :: 0 <= i < |top| ==> top[i].0 == ActiveIssuesOf(us)[i].number;
    MostCommonTop(IssueNumbers(us), TopCount, n);
  }

  /** The title shown for each most active issue is that of its first
      update. */
  lemma ActiveIssueTitle(us: seq<Update>, i: nat)
    requires i < |ActiveIssuesOf(us)|
    ensures var a := ActiveIssuesOf(us)[i];
      exists j :: (&& 0 <= j < |us| && us[j].issueNumber == a.number && a.title == us[j].issueTitle
                   && forall k :: 0 <= k < j ==> us[k].issueNumber != a.number)
  {
    FirstTitleSpec(us, ActiveIssuesOf(us)[i].number);
  }

  /** Exactly one busiest day is reported, with its number of updates; no
      day has more, and a day with as many appeared later. */
  lemma BusiestDay(us: seq<Update>)
    requires |us| > 0
    ensures var b := BusiestOf(us);
      && |b| == 1
      && b[0].0 in Days(us)
      && b[0].1 == Count(Days(us), b[0].0)
      && forall d :: d in Days(us) && d != b[0].0 ==> Precedes(Days(us), b[0].0, d)
  {
    var m := MostCommon(Days(us), 1);
    MostCommonOrder(Days(us), 1);
    assert Days(us)[0] in Distinct(Days(us));
    forall d | d in Days(us) && d != m[0].0
      ensures Precedes(Days(us), m[0].0, d)
    {
      MostCommonTop(Days(us), 1, d);
    }
  }

  function RenderBusiest(top: seq<(string, nat)>): string {
    if |top| == 0 then ""
    else "- **Busiest day:** " + top[0].0 + " (" + IntToString(top[0].1) + " updates)\n" + RenderBusiest(top[1..])
  }

  function RenderContributors(top: seq<(string, nat)>): string {
    if |top| == 0 then ""
    else "- **@" + top[0].0 + ":** " + IntToString(top[0].1) + " updates\n" + RenderContributors(top[1..])
  }

  function RenderIssues(top: seq<IssueActivity>): string {
    if |top| == 0 then ""
    else
      "- **Issue #" + IntToString(top[0].number) + ":** " + IntToString(top[0].count)
      + " updates - " + top[0].title + "\n" + RenderIssues(top[1..])
  }

  const TrendsTitle: string := "# EPIC Updates Trend Analysis\n\n"

  function RenderTrends(b: Batch, v: TrendView): string {
    "**Analysis Period:** Last " + IntToString(b.daysBack) + " days\n"
    + "**Repository:** " + b.repo + "\n\n"
    + "## Key Metrics\n\n"
    + "- **Total EPIC Updates:** " + IntToString(v.totalUpdates) + "\n"
    + "- **Unique Issues with Updates:** " + IntToString(v.uniqueIssues) + "\n"
    + "- **Active Contributors:** " + IntToString(v.contributors) + "\n"
    + "\n"
    + "## Top Contributors\n\n"
    + RenderContributors(v.topContributors)
    + "\n## Most Active Issues\n\n"
    + RenderIssues(v.activeIssues)
    + "\n## Update Frequency\n\n"
    + RenderBusiest(v.busiest)
  }

  /** `analyze_epic_trends` on a batch: the sentinel exactly when there are
      no updates. */
  function AnalyzeEpicTrends(b: Batch): (r: string)
    ensures r == NoUpdatesForAnalysis <==> |b.updates| == 0
  {
    if |b.updates| == 0 then NoUpdatesForAnalysis
    else
      var r := TrendsTitle + RenderTrends(b, TrendsOf(b.updates));
      assert r[0] == TrendsTitle[0] == '#';
      assert NoUpdatesForAnalysis[0] == 'N';
      r
  }
}
