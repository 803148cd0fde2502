/** The update collector: the filtering loop of
    `GitHubIssueCrawler.extract_epic_updates` over already fetched issues and
    comments, and the issue-URL reading and date filter of
    `get_epic_updates_from_issue`. */
module Collector {
  import opened Wrappers
  import opened Text
  import opened Dates
  import opened Detector
  import opened Parser
  import opened Records

  /** What makes a collection fail: a date string `strptime` rejects, a date
      window that leaves the representable range (`OverflowError`), or an
      issue URL that does not have the expected shape. */
  datatype CollectError = BadDate(text: string) | DateOverflow | InvalidUrl

  /** The message returned for a malformed issue URL. */
  const InvalidUrlMessage: string :=
    "Invalid GitHub issue URL format. Expected: https://github.com/owner/repo/issues/number"

  // ---------------------------------------------------------------------------
  // The date window
  // ---------------------------------------------------------------------------

  /** `datetime.now()`: today's date, and whether the time of day is exactly
      midnight. */
  datatype Clock = Clock(today: Date, atMidnight: bool)

  /** The comment dates a collection accepts, as an inclusive range of day
      ordinals. */
  datatype Window = Window(first: int, last: int)

  predicate InWindow(w: Window, d: Date)
    requires Valid(d)
  {
    w.first <= Ordinal(d) <= w.last
  }

  /** The date range of `extract_epic_updates`. With a start date the range is
      `[start, end]`, or `[start, today]` without an end date. Without a start
      date it is `now - days_back` to `now`: a comment's date is read as
      midnight, so the first day counts only when `now` is exactly midnight. */
  function MakeWindow(daysBack: int, startDate: string, endDate: string, now: Clock): (r: Result<Window, CollectError>)
    requires Valid(now.today)
    ensures startDate != "" && ParseDate(startDate).None? ==> r == Failure(BadDate(startDate))
    ensures startDate != "" && ParseDate(startDate).Some? && endDate != "" && ParseDate(endDate).None? ==>
      r == Failure(BadDate(endDate))
    ensures startDate == "" ==> (r.Failure? <==> !(1 <= Ordinal(now.today) - daysBack <= MaxOrdinal))
  {
    if startDate != "" then
      match ParseDate(startDate)
      case None => Failure(BadDate(startDate))
      case Some(start) =>
        if endDate != "" then
          match ParseDate(endDate)
          case None => Failure(BadDate(endDate))
          case Some(end) => Success(Window(Ordinal(start), Ordinal(end)))
        else
          Success(Window(Ordinal(start), Ordinal(now.today)))
    else
      var cutoff := Ordinal(now.today) - daysBack;
      if cutoff < 1 || cutoff > MaxOrdinal then Failure(DateOverflow)
      else Success(Window(if now.atMidnight then cutoff else cutoff + 1, Ordinal(now.today)))
  }

  /** With explicit dates, `days_back` plays no part, and a comment date is
      accepted exactly when it lies between the start date and the end date
      (or today), both inclusive. */
  lemma WindowBetweenDates(daysBack: int, startDate: string, endDate: string, now: Clock, d: Date)
    requires Valid(now.today) && Valid(d)
    requires startDate != "" && ParseDate(startDate).Some?
    requires endDate == "" || ParseDate(endDate).Some?
    ensures MakeWindow(daysBack, startDate, endDate, now) == MakeWindow(0, startDate, endDate, now)
    ensures MakeWindow(daysBack, startDate, endDate, now).Success?
    ensures var start := ParseDate(startDate).value;
      var end := if endDate == "" then now.today else ParseDate(endDate).value;
      InWindow(MakeWindow(daysBack, startDate, endDate, now).value, d) <==> !Before(d, start) && !Before(end, d)
  {
    var start := ParseDate(startDate).value;
    var end := if endDate == "" then now.today else ParseDate(endDate).value;
    OrdinalOrder(d, start);
    OrdinalOrder(end, d);
  }

  /** Without a start date, the window covers the last `days_back` days up to
      today; the day `days_back` days ago counts only at exactly midnight. */
  lemma WindowDaysBack(daysBack: int, now: Clock, d: Date)
    requires Valid(now.today) && Valid(d)
    requires 1 <= Ordinal(now.today) - daysBack <= MaxOrdinal
    ensures MakeWindow(daysBack, "", "", now).Success?
    ensures InWindow(MakeWindow(daysBack, "", "", now).value, d) <==>
      && !Before(now.today, d)
      && (Ordinal(d) > Ordinal(now.today) - daysBack || (now.atMidnight && Ordinal(d) == Ordinal(now.today) - daysBack))
  {
    OrdinalOrder(now.today, d);
  }

  // ---------------------------------------------------------------------------
  // The collection loop
  // ---------------------------------------------------------------------------

  /** One comment together with the issue it was posted on. */
  datatype Posted = Posted(issue: Issue, comment: Comment)

  function PostedOn(issue: Issue): (ps: seq<Posted>)
    ensures |ps| == |issue.comments|
    ensures forall j :: 0 <= j < |ps| ==> ps[j] == Posted(issue, issue.comments[j])
  {
    seq(|issue.comments|, j requires 0 <= j < |issue.comments| => Posted(issue, issue.comments[j]))
  }

  /** All comments, issue by issue, each issue's comments in order. */
  function AllPosted(issues: seq<Issue>): seq<Posted> {
    if |issues| == 0 then [] else AllPosted(issues[..|issues| - 1]) + PostedOn(issues[|issues| - 1])
  }

  /** `datetime.strptime(comment['created_at'][:10], '%Y-%m-%d')`. */
  function CommentDate(c: Comment): Option<Date> {
    ParseDate(Prefix(c.createdAt, 10))
  }

  /** The record built for an accepted comment; its parsed data is the
      parser's result on the comment body. */
  function MakeUpdate(repo: string, p: Posted): (u: Update)
    ensures u.issueNumber == p.issue.number && u.commentId == p.comment.id && u.body == p.comment.body
    ensures u.parsed == Some(ParseEpicTemplate(p.comment.body))
  {
    Update(p.issue.number, p.issue.title, p.comment.id, p.comment.body, p.comment.author,
           p.comment.createdAt, repo, Some(ParseEpicTemplate(p.comment.body)))
  }

  /** A comment is collected when its date is in the window and the detector
      accepts its body. */
  predicate Accepted(w: Window, p: Posted) {
    && CommentDate(p.comment).Some?
    && InWindow(w, CommentDate(p.comment).value)
    && IsEpicUpdateComment(p.comment.body)
  }

  /** What the loop decides for one comment: its date cannot be read (the
      loop aborts with `ValueError`), it is skipped, or it is kept as a
      record. */
  datatype Verdict = Unreadable(text: string) | Skipped | Kept(update: Update)

  /** The verdict of `extract_epic_updates` on one comment. */
  function Judge(repo: string, w: Window, p: Posted): Verdict {
    if CommentDate(p.comment).None? then Unreadable(Prefix(p.comment.createdAt, 10))
    else if Accepted(w, p) then Kept(MakeUpdate(repo, p))
    else Skipped
  }

  /** The loop's accumulation, one verdict at a time: the first unreadable
      date aborts; otherwise the kept records in order. */
  function Fold(vs: seq<Verdict>): Result<seq<Update>, CollectError> {
    if |vs| == 0 then Success([])
    else
      match Fold(vs[..|vs| - 1])
      case Failure(e) => Failure(e)
      case Success(us) =>
        match vs[|vs| - 1]
        case Unreadable(text) => Failure(BadDate(text))
        case Skipped => Success(us)
        case Kept(u) => Success(us + [u])
  }

  /** The verdicts of `judge` on a sequence of comments. */
  function VerdictsBy(judge: Posted -> Verdict, ps: seq<Posted>): (vs: seq<Verdict>)
    ensures |vs| == |ps|
    ensures forall i :: 0 <= i < |ps| ==> vs[i] == judge(ps[i])
  {
    seq(|ps|, i requires 0 <= i < |ps| => judge(ps[i]))
  }

  /** The accumulation of `judge`'s verdicts over a sequence of comments. */
  function CollectBy(judge: Posted -> Verdict, ps: seq<Posted>): Result<seq<Update>, CollectError> {
    Fold(VerdictsBy(judge, ps))
  }

  /** The collection over a sequence of comments. */
  function Collect(repo: string, w: Window, ps: seq<Posted>): Result<seq<Update>, CollectError> {
    CollectBy(p => Judge(repo, w, p), ps)
  }

  /** The accumulation fails exactly when some verdict is unreadable, and
      then with the first one's text. */
  lemma {:induction false} FoldFails(vs: seq<Verdict>)
    ensures Fold(vs).Failure? <==> exists i :: 0 <= i < |vs| && vs[i].Unreadable?
    ensures Fold(vs).Failure? ==>
      exists i :: && 0 <= i < |vs| && vs[i].Unreadable? && Fold(vs).error == BadDate(vs[i].text)
                  && forall k :: 0 <= k < i ==> !vs[k].Unreadable?
  {
    if |vs| > 0 {
      var init := vs[..|vs| - 1];
      FoldFails(init);
      assert forall k :: 0 <= k < |init| ==> init[k] == vs[k];
    }
  }

  /** A successful accumulation holds exactly the kept records, and at most
      one record per verdict. */
  lemma {:induction false} FoldMembers(vs: seq<Verdict>)
    requires Fold(vs).Success?
    ensures forall u :: u in Fold(vs).value <==> exists i :: 0 <= i < |vs| && vs[i] == Kept(u)
    ensures |Fold(vs).value| <= |vs|
  {
    if |vs| > 0 {
      var init := vs[..|vs| - 1];
      FoldMembers(init);
      assert forall k :: 0 <= k < |init| ==> init[k] == vs[k];
      forall u | exists i :: 0 <= i < |vs| && vs[i] == Kept(u)
        ensures u in Fold(vs).value
      {
        var i :| 0 <= i < |vs| && vs[i] == Kept(u);
        if i < |init| {
          assert init[i] == Kept(u);
        }
      }
    }
  }

  /** Accumulating a concatenation is concatenating the accumulations, and
      a failure in the first part wins. */
  lemma {:induction false} FoldConcat(a: seq<Verdict>, b: seq<Verdict>)
    ensures Fold(a).Failure? ==> Fold(a + b) == Fold(a)
    ensures Fold(a).Success? && Fold(b).Success? ==> Fold(a + b) == Success(Fold(a).value + Fold(b).value)
    decreases |b|
  {
    if |b| == 0 {
      assert a + b == a;
      if Fold(a).Success? {
        assert Fold(a).value + [] == Fold(a).value;
      }
    } else {
      var ab := a + b;
      var init := b[..|b| - 1];
      assert ab[..|ab| - 1] == a + init;
      assert ab[|ab| - 1] == b[|b| - 1];
      FoldConcat(a, init);
      if Fold(a).Success? && Fold(b).Success? && b[|b| - 1].Kept? {
        var ua, ui := Fold(a).value, Fold(init).value;
        assert (ua + ui) + [b[|b| - 1].update] == ua + (ui + [b[|b| - 1].update]);
      }
    }
  }

  /** The same for comments: records keep the input's order, issue by issue
      and comment by comment, and an unreadable date in the first part
      wins. */
  lemma CollectByConcat(judge: Posted -> Verdict, a: seq<Posted>, b: seq<Posted>)
    ensures CollectBy(judge, a).Failure? ==> CollectBy(judge, a + b) == CollectBy(judge, a)
    ensures CollectBy(judge, a).Success? && CollectBy(judge, b).Success? ==>
      CollectBy(judge, a + b) == Success(CollectBy(judge, a).value + CollectBy(judge, b).value)
  {
    assert VerdictsBy(judge, a + b) == VerdictsBy(judge, a) + VerdictsBy(judge, b);
    FoldConcat(VerdictsBy(judge, a), VerdictsBy(judge, b));
  }

  /** A collection fails exactly when some comment date cannot be read, and
      then it reports the first such date. */
  lemma CollectFails(repo: string, w: Window, ps: seq<Posted>)
    ensures Collect(repo, w, ps).Failure? <==> exists i :: 0 <= i < |ps| && CommentDate(ps[i].comment).None?
    ensures Collect(repo, w, ps).Failure? ==>
      exists i :: && 0 <= i < |ps| && CommentDate(ps[i].comment).None?
                  && Collect(repo, w, ps).error == BadDate(Prefix(ps[i].comment.createdAt, 10))
                  && forall k :: 0 <= k < i ==> CommentDate(ps[k].comment).Some?
  {
    var vs := VerdictsBy(p => Judge(repo, w, p), ps);
    FoldFails(vs);
    assert forall i :: 0 <= i < |ps| ==> (vs[i].Unreadable? <==> CommentDate(ps[i].comment).None?);
  }

  /** A comment is kept, as its record, exactly when it is accepted. */
  lemma JudgeKept(repo: string, w: Window, p: Posted, u: Update)
    ensures Judge(repo, w, p) == Kept(u) <==> Accepted(w, p) && u == MakeUpdate(repo, p)
  {
  }

  /** A successful collection holds a record for a comment exactly when the
      comment is accepted (date in the window, detector satisfied), with the
      parser's result as parsed data; there are no more records than
      comments. */
  lemma CollectMembers(repo: string, w: Window, ps: seq<Posted>)
    requires Collect(repo, w, ps).Success?
    ensures forall u :: u in Collect(repo, w, ps).value <==>
      exists i :: 0 <= i < |ps| && Accepted(w, ps[i]) && u == MakeUpdate(repo, ps[i])
    ensures |Collect(repo, w, ps).value| <= |ps|
  {
    var judge := p => Judge(repo, w, p);
    var vs := VerdictsBy(judge, ps);
    FoldMembers(vs);
    forall u
      ensures (exists i :: 0 <= i < |vs| && vs[i] == Kept(u)) <==>
              (exists i :: 0 <= i < |ps| && Accepted(w, ps[i]) && u == MakeUpdate(repo, ps[i]))
    {
      forall i | 0 <= i < |ps|
        ensures vs[i] == Kept(u) <==> Accepted(w, ps[i]) && u == MakeUpdate(repo, ps[i])
      {
        JudgeKept(repo, w, ps[i], u);
      }
    }
  }

  /** `extract_epic_updates` after the issues and their comments have been
      fetched: the date window first, then every comment of every issue in
      order, reading its date, testing the window and the detector, and
      parsing accepted bodies. */
  method ExtractEpicUpdates(repo: string, daysBack: int, startDate: string, endDate: string, now: Clock, issues: seq<Issue>)
    returns (r: Result<seq<Update>, CollectError>)
    requires Valid(now.today)
    ensures MakeWindow(daysBack, startDate, endDate, now).Failure? ==> r == Failure(MakeWindow(daysBack, startDate, endDate, now).error)
    ensures MakeWindow(daysBack, startDate, endDate, now).Success? ==>
      r == Collect(repo, MakeWindow(daysBack, startDate, endDate, now).value, AllPosted(issues))
  {
    var window := MakeWindow(daysBack, startDate, endDate, now);
    if window.Failure? {
      return Failure(window.error);
    }
    var w := window.value;
    r := CollectIssues(p => Judge(repo, w, p), issues);
  }

  /** One comment's step of the loop, done the way the program does it:
      read the date, test the window, run the detector, parse the body. */
  method JudgeComment(repo: string, w: Window, p: Posted) returns (v: Verdict)
    ensures v.Unreadable? <==> CommentDate(p.comment).None?
    ensures v.Kept? <==> Accepted(w, p)
    ensures v.Kept? ==> v.update == MakeUpdate(repo, p) && v.update.parsed == Some(ParseEpicTemplate(p.comment.body))
    ensures v == Judge(repo, w, p)
  {
    var date := CommentDate(p.comment);
    if date.None? {
      return Unreadable(Prefix(p.comment.createdAt, 10));
    }
    if InWindow(w, date.value) {
      var detected := DetectEpicUpdate(p.comment.body);
      if detected {
        return Kept(MakeUpdate(repo, p));
      }
    }
    return Skipped;
  }

  /** The comments of the first `i + 1` issues come first among all
      comments. */
  lemma {:induction false} AllPostedPrefix(issues: seq<Issue>, i: nat)
    requires i < |issues|
    ensures var pre := AllPosted(issues[..i + 1]);
      |pre| <= |AllPosted(issues)| && AllPosted(issues)[..|pre|] == pre
    decreases |issues|
  {
    var n := |issues|;
    if i + 1 == n {
      assert issues[..i + 1] == issues;
    } else {
      var init := issues[..n - 1];
      AllPostedPrefix(init, i);
      assert init[..i + 1] == issues[..i + 1];
    }
  }

  /** Once the comments of the first `i + 1` issues make the collection
      fail, the whole collection fails the same way. */
  lemma CollectStopsEarly(judge: Posted -> Verdict, issues: seq<Issue>, i: nat)
    requires i < |issues|
    requires CollectBy(judge, AllPosted(issues[..i + 1])).Failure?
    ensures CollectBy(judge, AllPosted(issues)) == CollectBy(judge, AllPosted(issues[..i + 1]))
  {
    AllPostedPrefix(issues, i);
    var all, pre := AllPosted(issues), AllPosted(issues[..i + 1]);
    SplitAfter(all, pre);
    FailedPrefix(judge, pre, all[|pre|..]);
  }

  lemma SplitAfter<T>(all: seq<T>, pre: seq<T>)
    requires |pre| <= |all| && all[..|pre|] == pre
    ensures all == pre + all[|pre|..]
  {
    assert all == all[..|pre|] + all[|pre|..];
  }

  /** A failed collection stays failed, with the same error, whatever
      follows. */
  lemma FailedPrefix(judge: Posted -> Verdict, pre: seq<Posted>, rest: seq<Posted>)
    requires CollectBy(judge, pre).Failure?
    ensures CollectBy(judge, pre + rest) == CollectBy(judge, pre)
  {
    CollectByConcat(judge, pre, rest);
  }

  /** The outer loop of the collection: issues in order. */
  method CollectIssues(judge: Posted -> Verdict, issues: seq<Issue>) returns (r: Result<seq<Update>, CollectError>)
    ensures r == CollectBy(judge, AllPosted(issues))
  {
    var updates: seq<Update> := [];
    var i := 0;
    while i < |issues|
      invariant 0 <= i <= |issues|
      invariant CollectBy(judge, AllPosted(issues[..i])) == Success(updates)
    {
      assert issues[..i + 1][..i] == issues[..i];
      assert AllPosted(issues[..i + 1]) == AllPosted(issues[..i]) + PostedOn(issues[i]);
      var next := CollectComments(judge, AllPosted(issues[..i]), issues[i], updates);
      if next.Failure? {
        CollectStopsEarly(judge, issues, i);
        return next;
      }
      updates := next.value;
      i := i + 1;
    }
    assert issues[..i] == issues;
    return Success(updates);
  }

  /** The inner loop of the collection: one issue's comments in order,
      continuing a collection that has produced `updates` so far. */
  method CollectComments(judge: Posted -> Verdict, ghost done: seq<Posted>, issue: Issue, updates: seq<Update>)
    returns (r: Result<seq<Update>, CollectError>)
    requires CollectBy(judge, done) == Success(updates)
    ensures r == CollectBy(judge, done + PostedOn(issue))
  {
    var us := updates;
    var j := 0;
    assert done + PostedOn(issue)[..0] == done;
    while j < |issue.comments|
      invariant 0 <= j <= |issue.comments|
      invariant CollectBy(judge, done + PostedOn(issue)[..j]) == Success(us)
    {
      ghost var seen := done + PostedOn(issue)[..j];
      var p := Posted(issue, issue.comments[j]);
      var v := judge(p);
      assert done + PostedOn(issue)[..j + 1] == seen + [p];
      assert VerdictsBy(judge, seen + [p]) == VerdictsBy(judge, seen) + [v];
      assert (VerdictsBy(judge, seen) + [v])[..|seen|] == VerdictsBy(judge, seen);
      if v.Unreadable? {
        assert done + PostedOn(issue) == (seen + [p]) + PostedOn(issue)[j + 1..];
        CollectByConcat(judge, seen + [p], PostedOn(issue)[j + 1..]);
        return Failure(BadDate(v.text));
      }
      if v.Kept? {
        us := us + [v.update];
      }
      j := j + 1;
    }
    assert PostedOn(issue)[..j] == PostedOn(issue);
    return Success(us);
  }

  // ---------------------------------------------------------------------------
  // get_epic_updates_from_issue
  // ---------------------------------------------------------------------------

  const UrlPrefix: string := "https://github.com/"

  /** The repository and issue number an issue URL names. */
  datatype IssueRef = IssueRef(repo: string, number: nat)

  /** The longest run of decimal digits at the start of `s` (`\d+` is greedy). */
  function LeadingDigits(s: string): (r: string)
    ensures AllDigits(r) && |r| <= |s| && r == s[..|r|]
    ensures |r| == |s| || !IsDigit(s[|r|])
  {
    if |s| > 0 && IsDigit(s[0]) then [s[0]] + LeadingDigits(s[1..]) else []
  }

  /** `re.match(r'https://github\.com/([^/]+/[^/]+)/issues/(\d+)', url)`: the
      match is anchored at the start only. Cutting what follows the prefix at
      each `/`, the first two pieces are the owner and the repository (each
      non-empty), the third must be `issues`, and the fourth must start with a
      digit. */
  function ParseIssueUrl(url: string): Result<IssueRef, CollectError> {
    if !StartsWith(url, UrlPrefix) then Failure(InvalidUrl)
    else
      var pieces := Split(url[|UrlPrefix|..], '/');
      if |pieces| < 4 || pieces[0] == "" || pieces[1] == "" || pieces[2] != "issues" then Failure(InvalidUrl)
      else
        var digits := LeadingDigits(pieces[3]);
        if digits == "" then Failure(InvalidUrl)
        else Success(IssueRef(pieces[0] + "/" + pieces[1], DigitsValue(digits)))
  }

  /** The canonical URL of an issue. */
  function IssueUrl(owner: string, name: string, number: nat): string {
    UrlPrefix + owner + "/" + name + "/issues/" + NatToString(number)
  }

  /** Every well-formed issue URL is read back to its repository and number,
      whatever follows the number (as long as it does not extend it). */
  lemma ParseIssueUrlRoundTrip(owner: string, name: string, number: nat, tail: string)
    requires owner != "" && name != "" && '/' !in owner && '/' !in name
    requires tail == [] || !IsDigit(tail[0])
    ensures ParseIssueUrl(IssueUrl(owner, name, number) + tail) == Success(IssueRef(owner + "/" + name, number))
  {
    var digits := NatToString(number);
    var path := owner + "/" + name + "/issues/" + (digits + tail);
    var url := IssueUrl(owner, name, number) + tail;
    assert url == UrlPrefix + path;
    assert StartsWith(url, UrlPrefix) && url[|UrlPrefix|..] == path;
    IssuePathPieces(owner, name, digits + tail);
    DigitsFirstPiece(digits, tail);
  }

  /** `url` is the prefix, a non-empty owner and repository without `/`,
      `issues`, a run of digits, and a tail that does not extend the run. */
  predicate IssueUrlShape(url: string, owner: string, name: string, digits: string, tail: string) {
    && owner != "" && name != "" && '/' !in owner && '/' !in name
    && digits != "" && AllDigits(digits) && (tail == [] || !IsDigit(tail[0]))
    && url == UrlPrefix + owner + "/" + name + "/issues/" + digits + tail
  }

  /** Conversely, a URL is accepted only when it has that shape, and it then
      names the repository `owner/name` and the issue the digits denote. */
  lemma ParseIssueUrlShape(url: string)
    requires ParseIssueUrl(url).Success?
    ensures exists owner, name, digits, tail :: (IssueUrlShape(url, owner, name, digits, tail)
      && ParseIssueUrl(url).value == IssueRef(owner + "/" + name, DigitsValue(digits)))
  {
    var rest := url[|UrlPrefix|..];
    var pieces := Split(rest, '/');
    var r3 := Join(pieces[3..], '/');
    JoinPath(pieces);
    assert url == UrlPrefix + rest by {
      assert url == url[..|UrlPrefix|] + rest;
    }
    var digits := LeadingDigits(pieces[3]);
    DigitsThenTail(pieces[3..]);
    var tail := r3[|digits|..];
    assert r3 == digits + tail;
    assert '/' !in pieces[0] && '/' !in pieces[1];
    Reassemble(url, rest, pieces[0], pieces[1], r3, digits, tail);
    assert IssueUrlShape(url, pieces[0], pieces[1], digits, tail);
  }

  /** Regrouping the concatenation the URL reader takes apart. */
  lemma Reassemble(url: string, rest: string, owner: string, name: string, r3: string, digits: string, tail: string)
    requires url == UrlPrefix + rest
    requires rest == owner + "/" + name + "/issues/" + r3
    requires r3 == digits + tail
    ensures url == UrlPrefix + owner + "/" + name + "/issues/" + digits + tail
  {
  }

  /** A path of at least four pieces, the third `issues`, joined back. */
  lemma JoinPath(pieces: seq<string>)
    requires |pieces| >= 4 && pieces[2] == "issues"
    ensures Join(pieces, '/') == pieces[0] + "/" + pieces[1] + "/issues/" + Join(pieces[3..], '/')
  {
    assert pieces[1..][1..] == pieces[2..] && pieces[2..][1..] == pieces[3..];
    assert Join(pieces, '/') == pieces[0] + ['/'] + Join(pieces[1..], '/');
    assert Join(pieces[1..], '/') == pieces[1] + ['/'] + Join(pieces[2..], '/');
    assert Join(pieces[2..], '/') == "issues" + ['/'] + Join(pieces[3..], '/');
  }

  /** The digits at the front of the first piece start the joined pieces and
      are followed by a non-digit, or by nothing. */
  lemma DigitsThenTail(parts: seq<string>)
    requires |parts| > 0
    ensures var j := Join(parts, '/'); var d := LeadingDigits(parts[0]);
      |d| <= |j| && j[..|d|] == d && (|d| == |j| || !IsDigit(j[|d|]))
  {
    JoinHead(parts, '/');
    var j := Join(parts, '/');
    var d := LeadingDigits(parts[0]);
    assert j[..|d|] == j[..|parts[0]|][..|d|];
    if |d| < |parts[0]| {
      assert j[|d|] == j[..|parts[0]|][|d|];
    }
  }

  /** The first piece, then the separator when more pieces follow. */
  lemma JoinHead(parts: seq<string>, sep: char)
    requires |parts| > 0
    ensures var j := Join(parts, sep);
      |parts[0]| <= |j| && j[..|parts[0]|] == parts[0]
      && (|parts| > 1 ==> |parts[0]| < |j| && j[|parts[0]|] == sep)
  {
    if |parts| > 1 {
      assert Join(parts, sep) == parts[0] + [sep] + Join(parts[1..], sep);
    }
  }

  /** The `/`-pieces of an issue path. */
  lemma IssuePathPieces(owner: string, name: string, rest: string)
    requires '/' !in owner && '/' !in name
    ensures var pieces := Split(owner + "/" + name + "/issues/" + rest, '/');
      |pieces| >= 4 && pieces[0] == owner && pieces[1] == name && pieces[2] == "issues"
      && pieces[3] == Split(rest, '/')[0]
  {
    var t2 := "issues" + ['/'] + rest;
    var t1 := name + ['/'] + t2;
    assert owner + "/" + name + "/issues/" + rest == owner + ['/'] + t1;
    SplitCons(owner, '/', t1);
    SplitCons(name, '/', t2);
    SplitCons("issues", '/', rest);
  }

  /** The first `/`-piece of a number followed by a non-digit starts with
      exactly that number's digits. */
  lemma DigitsFirstPiece(digits: string, tail: string)
    requires AllDigits(digits)
    requires tail == [] || !IsDigit(tail[0])
    ensures LeadingDigits(Split(digits + tail, '/')[0]) == digits
  {
    assert '/' !in digits;
    SplitFirstPiece(digits, tail, '/');
    var after := Split(tail, '/')[0];
    assert after == [] || after[0] == tail[0];
    LeadingDigitsConcat(digits, after);
  }

  /** A separator-free start stays at the front of the first piece. */
  lemma {:induction false} SplitFirstPiece(p: string, t: string, sep: char)
    requires sep !in p
    ensures Split(p + t, sep)[0] == p + Split(t, sep)[0]
  {
    if |p| > 0 {
      assert (p + t)[1..] == p[1..] + t;
      assert (p + t)[0] == p[0];
      SplitFirstPiece(p[1..], t, sep);
      assert [p[0]] + (p[1..] + Split(t, sep)[0]) == p + Split(t, sep)[0];
    } else {
      assert p + t == t;
    }
  }

  /** The digits at the front of a number followed by a non-digit are the
      number's digits. */
  lemma {:induction false} LeadingDigitsConcat(digits: string, rest: string)
    requires AllDigits(digits)
    requires rest == [] || !IsDigit(rest[0])
    ensures LeadingDigits(digits + rest) == digits
  {
    if |digits| > 0 {
      assert (digits + rest)[1..] == digits[1..] + rest;
      LeadingDigitsConcat(digits[1..], rest);
      assert [digits[0]] + digits[1..] == digits;
    } else {
      assert digits + rest == rest;
    }
  }

  /** The title recorded for updates read from an issue URL. */
  function IssueTitle(number: int): string {
    "Issue #" + IntToString(number)
  }

  /** The record `get_epic_updates_from_issue` builds for a comment of the
      issue named by the URL. */
  function IssueUpdateOf(ref: IssueRef, c: Comment): Update {
    MakeUpdate(ref.repo, Posted(Issue(ref.number, IssueTitle(ref.number), []), c))
  }

  /** Whether the single-issue loop keeps a comment: posted on the target
      date when there is one, and detected as an EPIC update. */
  predicate OnTarget(target: Option<Date>, c: Comment) {
    (target.None? || CommentDate(c) == target) && IsEpicUpdateComment(c.body)
  }

  /** The comments the single-issue loop keeps, in order. */
  function KeptComments(target: Option<Date>, cs: seq<Comment>): (r: seq<Comment>)
    ensures forall c :: c in r <==> c in cs && OnTarget(target, c)
  {
    if |cs| == 0 then []
    else
      var rest := KeptComments(target, cs[1..]);
      assert forall c :: c in cs <==> c == cs[0] || c in cs[1..];
      (if OnTarget(target, cs[0]) then [cs[0]] else []) + rest
  }

  /** One record per comment, in order. */
  function UpdatesOf(ref: IssueRef, cs: seq<Comment>): seq<Update> {
    if |cs| == 0 then [] else [IssueUpdateOf(ref, cs[0])] + UpdatesOf(ref, cs[1..])
  }

  /** The comment loop of `get_epic_updates_from_issue`: with a target date,
      a comment is considered only when its date equals the target (and an
      unreadable comment date aborts); then the detector decides. */
  function FromComments(ref: IssueRef, target: Option<Date>, comments: seq<Comment>): Result<seq<Update>, CollectError> {
    if |comments| == 0 then Success([])
    else
      var c := comments[0];
      var date := CommentDate(c);
      if target.Some? && date.None? then Failure(BadDate(Prefix(c.createdAt, 10)))
      else match FromComments(ref, target, comments[1..])
        case Failure(e) => Failure(e)
        case Success(rest) =>
          var considered := target.None? || date.value == target.value;
          if considered && IsEpicUpdateComment(c.body) then
            Success([IssueUpdateOf(ref, c)] + rest)
          else
            Success(rest)
  }

  /** The result of `get_epic_updates_from_issue`. */
  datatype IssueUpdates = IssueUpdates(ref: IssueRef, targetDate: string, updates: seq<Update>)

  /** `get_epic_updates_from_issue` once the issue's comments have been
      fetched: the URL is read first, then the target date (an empty target
      means no date filter), then the comments. */
  function FromIssue(url: string, targetDate: string, comments: seq<Comment>): (r: Result<IssueUpdates, CollectError>)
    ensures ParseIssueUrl(url).Failure? ==> r == Failure(InvalidUrl)
    ensures ParseIssueUrl(url).Success? && targetDate != "" && ParseDate(targetDate).None? ==> r == Failure(BadDate(targetDate))
    ensures r.Success? ==> r.value.ref == ParseIssueUrl(url).value
  {
    match ParseIssueUrl(url)
    case Failure(e) => Failure(e)
    case Success(ref) =>
      if targetDate != "" && ParseDate(targetDate).None? then Failure(BadDate(targetDate))
      else
        var target := if targetDate == "" then None else ParseDate(targetDate);
        match FromComments(ref, target, comments)
        case Failure(e) => Failure(e)
        case Success(us) => Success(IssueUpdates(ref, targetDate, us))
  }

  /** With a target date, every collected update was posted on that date and
      is an EPIC update of the named issue. */
  lemma {:induction false} FromCommentsOnTarget(ref: IssueRef, t: Date, comments: seq<Comment>)
    requires FromComments(ref, Some(t), comments).Success?
    ensures forall u :: u in FromComments(ref, Some(t), comments).value ==>
      && u.issueNumber == ref.number && u.repo == ref.repo
      && IsEpicUpdateComment(u.body)
      && exists c :: c in comments && u.commentId == c.id && u.body == c.body && CommentDate(c) == Some(t)
  {
    if |comments| > 0 {
      FromCommentsOnTarget(ref, t, comments[1..]);
      forall u | u in FromComments(ref, Some(t), comments).value
        ensures exists c :: c in comments && u.commentId == c.id && u.body == c.body && CommentDate(c) == Some(t)
      {
        if u !in FromComments(ref, Some(t), comments[1..]).value {
          assert comments[0] in comments;
        } else {
          var c :| c in comments[1..] && u.commentId == c.id && u.body == c.body && CommentDate(c) == Some(t);
          assert c in comments;
        }
      }
    }
  }

  /** Some comment's date cannot be read. */
  predicate SomeDateUnreadable(cs: seq<Comment>) {
    exists i :: 0 <= i < |cs| && CommentDate(cs[i]).None?
  }

  lemma UnreadableCons(cs: seq<Comment>)
    requires |cs| > 0
    ensures SomeDateUnreadable(cs) <==> CommentDate(cs[0]).None? || SomeDateUnreadable(cs[1..])
  {
    if SomeDateUnreadable(cs) && CommentDate(cs[0]).Some? {
      var i :| 0 <= i < |cs| && CommentDate(cs[i]).None?;
      assert cs[1..][i - 1] == cs[i];
    }
    if SomeDateUnreadable(cs[1..]) {
      var i :| 0 <= i < |cs[1..]| && CommentDate(cs[1..][i]).None?;
      assert cs[i + 1] == cs[1..][i];
    }
  }

  /** The single-issue loop fails exactly when a target date is given and
      some comment date cannot be read; without a target it never fails. */
  lemma {:induction false} FromCommentsFails(ref: IssueRef, target: Option<Date>, cs: seq<Comment>)
    ensures FromComments(ref, target, cs).Failure? <==> target.Some? && SomeDateUnreadable(cs)
  {
    if |cs| > 0 {
      FromCommentsFails(ref, target, cs[1..]);
      UnreadableCons(cs);
    }
  }

  /** When the loop succeeds, its records are exactly those of the comments
      posted on the target date (every comment, without a target) that the
      detector accepts, in comment order. */
  lemma {:induction false} FromCommentsKept(ref: IssueRef, target: Option<Date>, cs: seq<Comment>)
    requires FromComments(ref, target, cs).Success?
    ensures FromComments(ref, target, cs).value == UpdatesOf(ref, KeptComments(target, cs))
  {
    if |cs| > 0 {
      FromCommentsKept(ref, target, cs[1..]);
      var rest := KeptComments(target, cs[1..]);
      if OnTarget(target, cs[0]) {
        var k := [cs[0]] + rest;
        assert k[0] == cs[0] && k[1..] == rest;
      } else {
        assert KeptComments(target, cs) == rest;
      }
    }
  }

  /** Every detected comment posted on the target date yields its record. */
  lemma FromCommentsComplete(ref: IssueRef, t: Date, cs: seq<Comment>, k: nat)
    requires FromComments(ref, Some(t), cs).Success?
    requires k < |cs| && CommentDate(cs[k]) == Some(t) && IsEpicUpdateComment(cs[k].body)
    ensures IssueUpdateOf(ref, cs[k]) in FromComments(ref, Some(t), cs).value
  {
    FromCommentsKept(ref, Some(t), cs);
    UpdatesOfMember(ref, KeptComments(Some(t), cs), cs[k]);
  }

  lemma {:induction false} UpdatesOfMember(ref: IssueRef, cs: seq<Comment>, c: Comment)
    requires c in cs
    ensures IssueUpdateOf(ref, c) in UpdatesOf(ref, cs)
  {
    if cs[0] != c {
      UpdatesOfMember(ref, cs[1..], c);
    }
  }
}
