/** `generate_epic_status_summary`: a digest of the parsed templates in a
    batch, built as a structured value and then rendered as Markdown. */
module StatusSummary {
  import opened Text
  import opened Parser
  import opened Records
  import opened Ranking

  /** How many progress rows are shown. */
  const ProgressCap: nat := 10
  /** How many epics are shown under risks and under scope changes. */
  const GroupCap: nat := 5
  /** How many items are shown per epic. */
  const ItemCap: nat := 3

  // ---------------------------------------------------------------------------
  // The parsed templates
  // ---------------------------------------------------------------------------

  /** The parsed data of the updates that carry some, in input order. */
  function Parsed(us: seq<Update>): (ps: seq<ParsedFields>)
    ensures |ps| <= |us|
  {
    if |us| == 0 then []
    else
      match us[0].parsed
      case Some(p) => [p] + Parsed(us[1..])
      case None => Parsed(us[1..])
  }

  lemma {:induction false} ParsedConcat(a: seq<Update>, b: seq<Update>)
    ensures Parsed(a + b) == Parsed(a) + Parsed(b)
  {
    if |a| == 0 {
      assert a + b == b;
    } else {
      assert (a + b)[0] == a[0] && (a + b)[1..] == a[1..] + b;
      ParsedConcat(a[1..], b);
    }
  }

  /** A single update contributes its parsed data, or nothing. */
  lemma ParsedSingle(u: Update)
    ensures Parsed([u]) == if u.parsed.Some? then [u.parsed.value] else []
  {
    assert [u][1..] == [];
  }

  // ---------------------------------------------------------------------------
  // The structured view
  // ---------------------------------------------------------------------------

  /** The non-empty statuses, in input order: what the `Counter` counts. */
  function Statuses(ps: seq<ParsedFields>): (ss: seq<string>)
    ensures forall i :: 0 <= i < |ss| ==> ss[i] != ""
  {
    if |ps| == 0 then []
    else (if ps[0].status != "" then [ps[0].status] else []) + Statuses(ps[1..])
  }

  /** Some parsed template carries status `s`. */
  predicate Carried(ps: seq<ParsedFields>, s: string) {
    exists k :: 0 <= k < |ps| && ps[k].status == s
  }

  /** The parsed templates carrying status `s`, in input order. */
  function Carrying(ps: seq<ParsedFields>, s: string): seq<ParsedFields> {
    Filter((p: ParsedFields) => p.status == s, ps)
  }

  /** The number of times a status is counted is the number of parsed
      templates carrying it. */
  lemma {:induction false} StatusCount(ps: seq<ParsedFields>, s: string)
    requires s != ""
    ensures Count(Statuses(ps), s) == |Carrying(ps, s)|
  {
    if |ps| > 0 {
      StatusCount(ps[1..], s);
      var head := if ps[0].status != "" then [ps[0].status] else [];
      assert multiset(head + Statuses(ps[1..])) == multiset(head) + multiset(Statuses(ps[1..]));
    }
  }

  /** A status is listed exactly when some parsed template carries it. */
  lemma {:induction false} StatusListed(ps: seq<ParsedFields>, s: string)
    ensures s in Statuses(ps) <==> s != "" && Carried(ps, s)
  {
    if |ps| > 0 {
      StatusListed(ps[1..], s);
      if exists i :: 0 <= i < |ps| && ps[i].status == s {
        var i :| 0 <= i < |ps| && ps[i].status == s;
        if i > 0 {
          assert ps[1..][i - 1] == ps[i];
        }
      }
      if exists i :: 0 <= i < |ps[1..]| && ps[1..][i].status == s {
        var i :| 0 <= i < |ps[1..]| && ps[1..][i].status == s;
        assert ps[i + 1] == ps[1..][i];
      }
    }
  }

  datatype ProgressRow = ProgressRow(epic: string, progress: string, status: string)

  /** An epic shown under risks or scope changes, with its first items. */
  datatype Flag = Flag(epic: string, owner: string, items: seq<string>)

  datatype StatusView = StatusView(
    statusCounts: seq<(string, nat)>,
    progress: seq<ProgressRow>,
    risks: seq<Flag>,
    scopeChanges: seq<Flag>)

  /** The status breakdown: every status with its count, most frequent
      first (`most_common()` without a limit). */
  function BreakdownOf(us: seq<Update>): seq<(string, nat)> {
    var ss := Statuses(Parsed(us));
    MostCommon(ss, |ss|)
  }

  function WithProgress(ps: seq<ParsedFields>): seq<ParsedFields> {
    Filter((p: ParsedFields) => p.progress != "", ps)
  }

  function ProgressOf(us: seq<Update>): seq<ProgressRow> {
    var f := WithProgress(Parsed(us));
    Take(seq(|f|, i requires 0 <= i < |f| => ProgressRow(f[i].epicName, f[i].progress, f[i].status)), ProgressCap)
  }

  /** The parsed templates whose `pick` list is not empty. */
  function Flagged(ps: seq<ParsedFields>, pick: ParsedFields -> seq<string>): seq<ParsedFields> {
    Filter((p: ParsedFields) => pick(p) != [], ps)
  }

  function FlagsOf(us: seq<Update>, pick: ParsedFields -> seq<string>): seq<Flag> {
    var f := Flagged(Parsed(us), pick);
    Take(seq(|f|, i requires 0 <= i < |f| => Flag(f[i].epicName, f[i].owner, Take(pick(f[i]), ItemCap))), GroupCap)
  }

  function Risks(p: ParsedFields): seq<string> { p.risksBlockers }
  function ScopeChanges(p: ParsedFields): seq<string> { p.scopeChanges }

  function StatusOf(us: seq<Update>): StatusView {
    StatusView(BreakdownOf(us), ProgressOf(us), FlagsOf(us, Risks), FlagsOf(us, ScopeChanges))
  }

  // ---------------------------------------------------------------------------
  // Properties of the view
  // ---------------------------------------------------------------------------

  /** Updates without parsed data contribute nothing to the summary. */
  lemma UnparsedIgnored(a: seq<Update>, u: Update, b: seq<Update>)
    requires u.parsed.None?
    ensures StatusOf(a + [u] + b) == StatusOf(a + b)
  {
    ParsedConcat(a + [u], b);
    ParsedConcat(a, [u]);
    ParsedConcat(a, b);
    ParsedSingle(u);
    assert Parsed(a + [u]) == Parsed(a);
  }

  /** The breakdown lists each status some parsed template carries, with
      the number of templates carrying it; the empty status is never
      listed. */
  lemma Breakdown(us: seq<Update>)
    ensures var r := BreakdownOf(us); var ps := Parsed(us);
      forall i :: 0 <= i < |r| ==>
        && r[i].0 != ""
        && Carried(ps, r[i].0)
        && r[i].1 == |Carrying(ps, r[i].0)|
  {
    var r := BreakdownOf(us);
    forall i | 0 <= i < |r|
      ensures && r[i].0 != ""
              && Carried(Parsed(us), r[i].0)
              && r[i].1 == |Carrying(Parsed(us), r[i].0)|
    {
      BreakdownEntry(us, i);
    }
  }

  lemma BreakdownEntry(us: seq<Update>, i: nat)
    requires i < |BreakdownOf(us)|
    ensures var e := BreakdownOf(us)[i]; var ps := Parsed(us);
      && e.0 != ""
      && Carried(ps, e.0)
      && e.1 == |Carrying(ps, e.0)|
  {
    var ps := Parsed(us);
    var ss := Statuses(ps);
    var r := MostCommon(ss, |ss|);
    assert r == BreakdownOf(us);
    var e := r[i];
    assert e.0 in ss && e.1 == Count(ss, e.0);
    StatusEntry(ps, e.0, e.1);
  }

  /** A counted status with its count, read back on the parsed templates. */
  lemma StatusEntry(ps: seq<ParsedFields>, s: string, c: nat)
    requires s in Statuses(ps) && c == Count(Statuses(ps), s)
    ensures s != "" && Carried(ps, s) && c == |Carrying(ps, s)|
  {
    StatusListed(ps, s);
    StatusCount(ps, s);
  }

  /** The breakdown is ordered by count, most frequent first, ties by first
      appearance. */
  lemma BreakdownOrder(us: seq<Update>)
    ensures var r := BreakdownOf(us); var ss := Statuses(Parsed(us));
      forall i, j :: 0 <= i < j < |r| ==> Precedes(ss, r[i].0, r[j].0)
  {
    var ss := Statuses(Parsed(us));
    MostCommonOrder(ss, |ss|);
  }

  /** Every status some parsed template carries is in the breakdown. */
  lemma BreakdownComplete(us: seq<Update>, k: nat)
    requires k < |Parsed(us)| && Parsed(us)[k].status != ""
    ensures exists i :: 0 <= i < |BreakdownOf(us)| && BreakdownOf(us)[i].0 == Parsed(us)[k].status
  {
    var ps := Parsed(us);
    var ss := Statuses(ps);
    var s := ps[k].status;
    MostCommonOrder(ss, |ss|);
    StatusListed(ps, s);
    RankSpec(ss);
    var r := BreakdownOf(us);
    assert s in Rank(ss);
    var i :| 0 <= i < |Rank(ss)| && Rank(ss)[i] == s;
    assert r[i].0 == Rank(ss)[i];
  }

  /** The progress overview shows the first ten parsed templates with a
      progress value, in input order, each with its epic name and status. */
  lemma ProgressOverview(us: seq<Update>)
    ensures var r := ProgressOf(us); var f := WithProgress(Parsed(us));
      && |r| == (if |f| <= ProgressCap then |f| else ProgressCap)
      && forall i :: 0 <= i < |r| ==>
           && f[i].progress != "" && f[i] in Parsed(us)
           && r[i] == ProgressRow(f[i].epicName, f[i].progress, f[i].status)
  {
  }

  /** The risk and scope groups show the first five parsed templates with a
      non-empty list, in input order, each with its epic name, owner and the
      first three items of the list (all of a shorter one). */
  lemma FlagGroups(us: seq<Update>, pick: ParsedFields -> seq<string>)
    ensures var r := FlagsOf(us, pick); var f := Flagged(Parsed(us), pick);
      && |r| == (if |f| <= GroupCap then |f| else GroupCap)
      && forall i :: 0 <= i < |r| ==>
           && f[i] in Parsed(us) && pick(f[i]) != []
           && r[i].epic == f[i].epicName && r[i].owner == f[i].owner
           && |r[i].items| == (if |pick(f[i])| <= ItemCap then |pick(f[i])| else ItemCap)
           && 0 < |r[i].items| && r[i].items == pick(f[i])[..|r[i].items|]
  {
  }

  // ---------------------------------------------------------------------------
  // Rendering
  // ---------------------------------------------------------------------------

  function RenderCounts(cs: seq<(string, nat)>): string {
    if |cs| == 0 then ""
    else "- **" + cs[0].0 + ":** " + IntToString(cs[0].1) + " epics\n" + RenderCounts(cs[1..])
  }

  function RenderRows(rs: seq<ProgressRow>): string {
    if |rs| == 0 then ""
    else "- **" + rs[0].epic + ":** " + rs[0].progress + " (" + rs[0].status + ")\n" + RenderRows(rs[1..])
  }

  function RenderItems(items: seq<string>): string {
    if |items| == 0 then "" else "- " + items[0] + "\n" + RenderItems(items[1..])
  }

  function RenderFlags(fs: seq<Flag>): string {
    if |fs| == 0 then ""
    else
      "### " + fs[0].epic + " (Owner: " + fs[0].owner + ")\n"
      + RenderItems(fs[0].items) + "\n"
      + RenderFlags(fs[1..])
  }

  /** A section, left out entirely when it has nothing to list. */
  function Section(title: string, empty: bool, body: string): string {
    if empty then "" else title + body
  }

  function RenderStatus(b: Batch, generated: string, v: StatusView): string {
    "**Generated:** " + generated + "\n"
    + "**Repository:** " + b.repo + "\n"
    + "**Period:** Last " + IntToString(b.daysBack) + " days\n"
    + "**Total EPIC Updates:** " + IntToString(b.totalUpdates) + "\n\n"
    + Section("## Status Breakdown\n\n", |v.statusCounts| == 0, RenderCounts(v.statusCounts) + "\n")
    + Section("## Progress Overview\n\n", |v.progress| == 0, RenderRows(v.progress) + "\n")
    + Section("## Epics with Risks/Blockers\n\n", |v.risks| == 0, RenderFlags(v.risks))
    + Section("## Epics with Scope Changes\n\n", |v.scopeChanges| == 0, RenderFlags(v.scopeChanges))
  }

  const StatusTitle: string := "# EPIC Status Summary\n\n"

  /** `generate_epic_status_summary` on a batch; `generated` is the
      timestamp the program reads from the clock. The sentinel is returned
      exactly when there are no updates, even when none carries parsed
      data. */
  function GenerateStatusSummary(b: Batch, generated: string): (r: string)
    ensures r == NoUpdatesForPeriod <==> |b.updates| == 0
  {
    if |b.updates| == 0 then NoUpdatesForPeriod
    else
      var r := StatusTitle + RenderStatus(b, generated, StatusOf(b.updates));
      assert r[0] == StatusTitle[0] == '#';
      SentinelStart();
      r
  }
}
