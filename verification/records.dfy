/** The records the collector reads and produces: issues and their comments as
    the issue tracker returns them, and `EpicUpdate`. */
module Records {
  import opened Wrappers
  import opened Parser

  /** A comment as fetched: `id`, `body`, `user.login` and `created_at`. */
  datatype Comment = Comment(id: int, body: string, author: string, createdAt: string)

  /** An issue as fetched, with its comments already materialised. */
  datatype Issue = Issue(number: int, title: string, comments: seq<Comment>)

  /** `EpicUpdate`: one comment recognised as an EPIC update. */
  datatype Update = Update(
    issueNumber: int,
    issueTitle: string,
    commentId: int,
    body: string,
    author: string,
    createdAt: string,
    repo: string,
    parsed: Option<ParsedFields>)

  /** The issue numbers of the updates, in order. */
  function IssueNumbers(us: seq<Update>): (ns: seq<int>)
    ensures |ns| == |us| && forall i :: 0 <= i < |us| ==> ns[i] == us[i].issueNumber
  {
    seq(|us|, i requires 0 <= i < |us| => us[i].issueNumber)
  }

  /** The authors of the updates, in order. */
  function Authors(us: seq<Update>): (as_: seq<string>)
    ensures |as_| == |us| && forall i :: 0 <= i < |us| ==> as_[i] == us[i].author
  {
    seq(|us|, i requires 0 <= i < |us| => us[i].author)
  }

  /** The `created_at` timestamps of the updates, in order. */
  function Stamps(us: seq<Update>): (ts: seq<string>)
    ensures |ts| == |us| && forall i :: 0 <= i < |us| ==> ts[i] == us[i].createdAt
  {
    seq(|us|, i requires 0 <= i < |us| => us[i].createdAt)
  }

  /** The board report's and the status summary's reply when there is
      nothing to report. */
  const NoUpdatesForPeriod: string := "No EPIC updates found " + "for the specified period."

  lemma SentinelStart()
    ensures NoUpdatesForPeriod[0] == 'N'
  {
  }

  /** What the report producers receive: the repository, the look-back
      period, the reported total and the update records. */
  datatype Batch = Batch(repo: string, daysBack: int, totalUpdates: int, updates: seq<Update>)
}
