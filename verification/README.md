# EPIC update tooling, modelled in Dafny

The repository's GitHub tools collect "EPIC update" comments from the issues
of a repository and turn them into board reports. This project models the
pure part of that pipeline:

- the **detector** that recognises an EPIC update comment by one of three
  markers, ignoring case;
- the **template parser** that folds the comment's lines into a
  `ParsedEpicData` record: five labelled scalars and five bullet lists;
- the **collector**, which filters an already fetched list of issues and
  comments by a date window and the detector, and parses what it keeps. It
  also models the issue-URL reader and the target-date filter of the
  single-issue variant;
- the three **report producers**: the board report in its summary,
  executive and detailed modes, the trend analysis and the status summary.
  Each first builds a structured view (groups, ranked counts, truncated
  lists) and then renders it as Markdown. The properties are stated on the
  view;
- the summary generator's **command-line helpers**: the issue-number list
  reader and the repository and date validators.

The two copies of `github_tools.py` (under `github_workflows` and
`mix_server`) are identical line for line, so one set of modules models both.
Rows below cite whichever copy the property was read from.

Modules, one per file, in dependency order:

- `Wrappers`: `Option` and `Result`.
- `Text`: Python's `strip`, `split`, `startswith`, `in`, `upper`, `replace(x, '')` and integer printing.
- `Dates`: `strptime('%Y-%m-%d')` and day ordinals.
- `Detector`, `Parser`, `Records`, `Collector`.
- `Ranking`: `Counter`, `most_common`, the two `max` idioms and list comprehensions.
- `BoardReport`, `Trends`, `StatusSummary`, `Cli`.

Python's integers are unbounded, like Dafny's, so no wrap-around arises; the one integer limit Python does impose is listed under "Left out".
Strings are sequences of code points.

## Model

| member | source | states |
|---|---|---|
| Text.Strip | mcp_intro/github_workflows/github_mcp/tools/github_tools.py:148 | `strip()` leaves a slice of the line with only whitespace cut from either end, and the result neither starts nor ends with whitespace |
| Text.StripEmptyIff | mcp_intro/github_workflows/github_mcp/tools/github_tools.py:148-150 | a stripped line is empty (and skipped) exactly when every character is whitespace |
| Text.StripIdempotent | mcp_intro/github_workflows/github_mcp/tools/github_tools.py:148 | stripping twice is stripping once |
| Text.Split | mcp_intro/github_workflows/github_mcp/tools/github_tools.py:131 | `split('\n')` yields at least one piece, no piece holds the separator, and joining the pieces gives back the text |
| Dates.ParseDate | mcp_intro/github_workflows/github_mcp/tools/github_tools.py:90-91 | `strptime(s, '%Y-%m-%d')` only accepts dates `datetime` can represent |
| Dates.ParseIsoFormat | mcp_intro/github_workflows/github_mcp/tools/github_tools.py:90-91 | every representable date is read back from its `YYYY-MM-DD` text |
| Dates.ParseTimestampDate | mcp_intro/github_workflows/github_mcp/tools/github_tools.py:108 | the first ten characters of a GitHub timestamp read as its date, whatever time part follows |
| Dates.OrdinalOrder | mcp_intro/github_workflows/github_mcp/tools/github_tools.py:109 | comparing day ordinals is comparing dates chronologically, both ways, and equal ordinals mean equal dates |
| Detector.MatchesAt | mcp_intro/github_workflows/github_mcp/tools/github_tools.py:83-84 | the position test is an upper-cased comparison at that position |
| Detector.SearchIgnoringCase | mcp_intro/github_workflows/github_mcp/tools/github_tools.py:84 | `re.search` with `IGNORECASE` finds a marker exactly when it occurs somewhere, case ignored |
| Detector.DetectEpicUpdate | mcp_intro/github_workflows/github_mcp/tools/github_tools.py:74-84 | a comment is detected exactly when it contains one of the three markers, case ignored |
| Detector.UpperedSearch | mcp_intro/github_workflows/github_mcp/tools/github_tools.py:83-84 | upper-casing the comment before the case-insensitive search changes no answer |
| Detector.MarkerDetected | mcp_intro/github_workflows/github_mcp/tools/github_tools.py:77-84 | any text holding a marker verbatim, anywhere, is detected |
| Detector.NoMarkerStart | mcp_intro/github_workflows/github_mcp/tools/github_tools.py:77-84 | a comment without `<`, `#` or `@`, such as a plain comment or the empty string, is not detected |
| Parser.NotLabelled | mcp_intro/github_workflows/github_mcp/tools/github_tools.py:153-174 | a line starting with neither `*` nor `-` carries no label |
| Parser.HeaderOfHeader | mcp_intro/github_workflows/github_mcp/tools/github_tools.py:177-186 | each of the five headers is recognised as its own section |
| Parser.HeaderLine | mcp_intro/github_workflows/github_mcp/tools/github_tools.py:177-186 | a line that strips to a header sets the current section and changes no field |
| Parser.StatusLabelled | mcp_intro/github_workflows/github_mcp/tools/github_tools.py:165 | a line starting with the status label is read as the status, not as another label |
| Parser.StatusLineInSection | mcp_intro/github_workflows/github_mcp/tools/github_tools.py:165-189 | a `- **Current status:**` line inside a section sets the status, keeps the section, and is not appended as a bullet |
| Parser.BulletOutsideSection | mcp_intro/github_workflows/github_mcp/tools/github_tools.py:189 | a bullet before any header changes nothing |
| Parser.CurrentSection | mcp_intro/github_workflows/github_mcp/tools/github_tools.py:145-186 | after any number of lines the current section is the one the last header line opened |
| Parser.SectionLists | mcp_intro/github_workflows/github_mcp/tools/github_tools.py:189-200 | each section's list is exactly the bullet texts filed under it, in input order |
| Parser.StepScalar | mcp_intro/github_workflows/github_mcp/tools/github_tools.py:153-174 | a line changes a scalar exactly when it carries that scalar's label, and then sets it to the line's value |
| Parser.ScalarDefault | mcp_intro/github_workflows/github_mcp/tools/github_tools.py:132-143 | a scalar no line labels keeps `""` |
| Parser.ScalarLastWins | mcp_intro/github_workflows/github_mcp/tools/github_tools.py:153-174 | a scalar holds the value of the last line carrying its label |
| Parser.ItemsBoundedByLines | mcp_intro/github_workflows/github_mcp/tools/github_tools.py:147-200 | the lists together never hold more items than there are lines |
| Parser.AbsentSectionEmpty | mcp_intro/github_workflows/github_mcp/tools/github_tools.py:138-189 | a section whose header never appears keeps an empty list |
| Parser.ParseEpicTemplateSpec | mcp_intro/github_workflows/github_mcp/tools/github_tools.py:128-206 | on a whole comment: lists are the filed bullets, their total is bounded by the line count, and unlabelled scalars are `""` |
| Parser.StatusRule | mcp_intro/github_workflows/github_mcp/tools/github_tools.py:165-170 | with a `_`, the status is the stripped text between the first `_` and the next one or the end; without one, the text itself |
| Parser.LabelledValue | mcp_intro/github_workflows/github_mcp/tools/github_tools.py:153-174 | a line made of a label and a value that does not repeat the label reads as the stripped value (through the status rule for the status) |
| Parser.DateLine | mcp_intro/github_workflows/github_mcp/tools/github_tools.py:153-154 | `**Date:** 2025-01-15` reads as `2025-01-15` |
| Parser.OnTrackStatus | mcp_intro/github_workflows/github_mcp/tools/github_tools.py:165-170 | `_On Track_` reads as `On Track` |
| Collector.MakeWindow | mcp_intro/github_workflows/github_mcp/tools/github_tools.py:88-97 | an unreadable start or end date is an error naming it; without a start date the window fails exactly when `now - days_back` is not a representable date |
| Collector.WindowBetweenDates | mcp_intro/github_workflows/github_mcp/tools/github_tools.py:88-109 | with a readable start date, `days_back` plays no part, and a comment date is accepted exactly when it lies between the start and the end (today when no end is given), both inclusive |
| Collector.WindowDaysBack | mcp_intro/github_workflows/github_mcp/tools/github_tools.py:94-109 | without a start date, a comment date is accepted exactly when it is not after today and later than `days_back` days ago, or on that day when the clock reads midnight |
| Collector.JudgeKept | mcp_intro/github_workflows/github_mcp/tools/github_tools.py:108-124 | a comment is kept, as its record, exactly when its date is in the window and the detector accepts it |
| Collector.FoldFails | mcp_intro/github_workflows/github_mcp/tools/github_tools.py:108 | the loop fails exactly when some date is unreadable, and reports the first one |
| Collector.FoldMembers | mcp_intro/github_workflows/github_mcp/tools/github_tools.py:103-124 | a finished loop holds exactly the kept records, at most one per comment |
| Collector.CollectFails | mcp_intro/github_workflows/github_mcp/tools/github_tools.py:106-108 | a collection fails exactly when some comment date cannot be read, with the first such date's text |
| Collector.CollectMembers | mcp_intro/github_workflows/github_mcp/tools/github_tools.py:103-124 | a successful collection holds a record exactly for each accepted comment |
| Collector.CollectByConcat | mcp_intro/github_workflows/github_mcp/tools/github_tools.py:103-124 | records keep issue-then-comment order: collecting a concatenation concatenates the collections, and an earlier failure wins |
| Collector.CollectStopsEarly | mcp_intro/github_workflows/github_mcp/tools/github_tools.py:103-108 | once an issue's comments make the loop fail, later issues do not matter |
| Collector.JudgeComment | mcp_intro/github_workflows/github_mcp/tools/github_tools.py:106-124 | one comment's step: unreadable exactly when the date is, kept exactly when accepted, and then parsed |
| Collector.CollectComments | mcp_intro/github_workflows/github_mcp/tools/github_tools.py:106-124 | the inner loop extends the collection with one issue's comments in order |
| Collector.CollectIssues | mcp_intro/github_workflows/github_mcp/tools/github_tools.py:103-104 | the outer loop is the collection over every comment of every issue, in order |
| Collector.ExtractEpicUpdates | mcp_intro/github_workflows/github_mcp/tools/github_tools.py:86-126 | a window error is returned as is; otherwise the result is the collection over the window |
| Collector.LeadingDigits | mcp_intro/github_workflows/github_mcp/tools/github_tools.py:281 | `\d+` takes the longest run of digits at the front |
| Collector.ParseIssueUrlRoundTrip | mcp_intro/github_workflows/github_mcp/tools/github_tools.py:281-288 | every `https://github.com/owner/name/issues/N` URL, whatever follows the number, reads back as repository `owner/name` and issue `N` |
| Collector.ParseIssueUrlShape | mcp_intro/github_workflows/github_mcp/tools/github_tools.py:281-288 | conversely, an accepted URL has that shape, with a non-empty owner and name free of `/` and a digit run not followed by a digit |
| Collector.FromIssue | mcp_intro/github_workflows/github_mcp/tools/github_tools.py:281-306 | a malformed URL gives the invalid-URL error, an unreadable target date its error, and a success names the URL's repository and issue |
| Collector.FromCommentsOnTarget | mcp_intro/github_workflows/github_mcp/tools/github_tools.py:296-322 | with a target date, every record is a detected comment of that issue posted on that date |
| Collector.FromCommentsComplete | mcp_intro/github_workflows/github_mcp/tools/github_tools.py:301-322 | with a target date, every detected comment posted on that date yields its record |
| Collector.FromCommentsKept | mcp_intro/github_workflows/github_mcp/tools/github_tools.py:301-322 | a successful loop returns exactly the records of the detected comments posted on the target date (all detected comments without a target), in comment order |
| Collector.FromCommentsFails | mcp_intro/github_workflows/github_mcp/tools/github_tools.py:296-306 | the loop fails exactly when a target date is given and some comment date cannot be read; without a target it never fails |
| Ranking.Distinct | mcp_intro/mix_server/github_mcp/tools/github_tools.py:398-399 | the distinct keys, without repetition, covering every key |
| Ranking.DistinctCard | mcp_intro/mix_server/github_mcp/tools/github_tools.py:398-399 | as many distinct keys as the set of keys has elements |
| Ranking.RankSpec | mcp_intro/mix_server/github_mcp/tools/github_tools.py:525 | `most_common()` lists every key once, higher counts first, ties by first appearance |
| Ranking.MostCommon | mcp_intro/mix_server/github_mcp/tools/github_tools.py:525-526 | each listed key occurs in the input, with its number of occurrences, and at most `n` are listed |
| Ranking.MostCommonOrder | mcp_intro/mix_server/github_mcp/tools/github_tools.py:525-529 | `most_common(n)` lists `n` keys, or all when fewer, in count order |
| Ranking.MostCommonTop | mcp_intro/mix_server/github_mcp/tools/github_tools.py:525-529 | a key left out ranks below every listed key |
| Ranking.FirstMax | mcp_intro/mix_server/github_mcp/tools/github_tools.py:537 | `max(d, key=d.get)` returns a key ranking above every other key |
| Ranking.FirstMaxIsTop | mcp_intro/mix_server/github_mcp/tools/github_tools.py:537 | that key heads the `most_common` listing |
| Ranking.MaxIndexSpec | mcp_intro/mix_server/github_mcp/tools/github_tools.py:414 | `max(xs, key=created_at)` picks a largest string, and the first one on ties |
| Ranking.StrLessTotal | mcp_intro/mix_server/github_mcp/tools/github_tools.py:414 | Python's string order is total on distinct strings |
| Ranking.FilterConcat | mcp_intro/mix_server/github_mcp/tools/github_tools.py:572-602 | a filtering comprehension over a concatenation is the concatenation of the filtered parts |
| BoardReport.GroupOrder | mcp_intro/mix_server/github_mcp/tools/github_tools.py:406-413 | groups follow the issues' first appearances |
| BoardReport.GroupContents | mcp_intro/mix_server/github_mcp/tools/github_tools.py:406-411 | no group is empty, and a group holds an update exactly when the issue numbers agree |
| BoardReport.GroupPartition | mcp_intro/mix_server/github_mcp/tools/github_tools.py:406-411 | every update belongs to exactly one group |
| BoardReport.LatestSpec | mcp_intro/mix_server/github_mcp/tools/github_tools.py:414 | the shown update is one of the group's, none has a later timestamp, and earlier updates have strictly earlier ones |
| BoardReport.DetailCaps | mcp_intro/mix_server/github_mcp/tools/github_tools.py:419-443 | structured details show the record's epic, owner, status and progress, plus exactly the first 3 recent items, 2 risks and 3 next steps (all of a shorter list) |
| BoardReport.CaptureNone | mcp_intro/mix_server/github_mcp/tools/github_tools.py:450-457 | without a heading line nothing is captured |
| BoardReport.CaptureRun | mcp_intro/mix_server/github_mcp/tools/github_tools.py:450-457 | once capturing, lines are kept up to the first blank non-heading line |
| BoardReport.CaptureFrom | mcp_intro/mix_server/github_mcp/tools/github_tools.py:450-457 | the capture starts at the first heading line and ends before the next blank line |
| BoardReport.ExcerptNone | mcp_intro/mix_server/github_mcp/tools/github_tools.py:444-461 | without parsed data and without a heading among the first ten lines, nothing is shown |
| BoardReport.ExcerptRun | mcp_intro/mix_server/github_mcp/tools/github_tools.py:444-461 | without parsed data, the excerpt is the run from the first heading among the first ten lines to the next blank line |
| BoardReport.BlankIsNoHeading | mcp_intro/mix_server/github_mcp/tools/github_tools.py:451-456 | a blank line never starts the excerpt |
| BoardReport.SummaryCounts | mcp_intro/mix_server/github_mcp/tools/github_tools.py:392-399 | summary mode echoes the supplied total and counts distinct issue numbers and distinct authors |
| BoardReport.ExecutiveDigests | mcp_intro/mix_server/github_mcp/tools/github_tools.py:401-461 | executive mode has one digest per distinct issue, in first-appearance order, each showing its group's latest update |
| BoardReport.DetailedBlocks | mcp_intro/mix_server/github_mcp/tools/github_tools.py:463-472 | any format other than `summary` and `executive` lists every update in input order |
| BoardReport.BoardHeader | mcp_intro/mix_server/github_mcp/tools/github_tools.py:388-392 | the title block starts with `#` |
| BoardReport.GenerateBoardReport | mcp_intro/mix_server/github_mcp/tools/github_tools.py:385-474 | the "no updates" sentinel is returned exactly when the update list is empty |
| Trends.FirstTitleSpec | mcp_intro/mix_server/github_mcp/tools/github_tools.py:530 | an issue's title is that of its first update |
| Trends.TrendTotals | mcp_intro/mix_server/github_mcp/tools/github_tools.py:506-512 | the total is the list's length, and the issue, author and active-day totals are the sizes of their sets |
| Trends.TopContributors | mcp_intro/mix_server/github_mcp/tools/github_tools.py:502-526 | at most five authors, five when there are that many, each with its update count, in count order |
| Trends.ContributorLeftOut | mcp_intro/mix_server/github_mcp/tools/github_tools.py:525 | an author left out ranks below every listed one |
| Trends.MostActiveIssues | mcp_intro/mix_server/github_mcp/tools/github_tools.py:503-529 | at most five issues, five when there are that many, each with its update count, in count order |
| Trends.IssueLeftOut | mcp_intro/mix_server/github_mcp/tools/github_tools.py:529 | an issue left out ranks below every listed one |
| Trends.ActiveIssueTitle | mcp_intro/mix_server/github_mcp/tools/github_tools.py:530 | the title shown for a listed issue is that of its first update |
| Trends.BusiestDay | mcp_intro/mix_server/github_mcp/tools/github_tools.py:507-537 | one busiest day, with its count, ranking above every other day: the first day with the largest count |
| Trends.AnalyzeEpicTrends | mcp_intro/mix_server/github_mcp/tools/github_tools.py:496-539 | the "no updates for analysis" sentinel is returned exactly when the update list is empty |
| StatusSummary.Parsed | mcp_intro/mix_server/github_mcp/tools/github_tools.py:572-573 | never more parsed records than updates |
| StatusSummary.ParsedConcat | mcp_intro/mix_server/github_mcp/tools/github_tools.py:572-573 | the parsed records of a concatenation are those of its parts, in order |
| StatusSummary.UnparsedIgnored | mcp_intro/mix_server/github_mcp/tools/github_tools.py:572-573 | adding an update without parsed data changes nothing in the summary |
| StatusSummary.Statuses | mcp_intro/mix_server/github_mcp/tools/github_tools.py:577-578 | the empty status is never counted |
| StatusSummary.StatusCount | mcp_intro/mix_server/github_mcp/tools/github_tools.py:577-578 | a status's count is the number of parsed records carrying it |
| StatusSummary.StatusListed | mcp_intro/mix_server/github_mcp/tools/github_tools.py:577-578 | a status is counted exactly when it is non-empty and some parsed record carries it |
| StatusSummary.Breakdown | mcp_intro/mix_server/github_mcp/tools/github_tools.py:612-615 | every listed status is non-empty, carried by some record, and shown with the number of records carrying it |
| StatusSummary.BreakdownOrder | mcp_intro/mix_server/github_mcp/tools/github_tools.py:614 | the breakdown runs in count order, ties by first appearance |
| StatusSummary.BreakdownComplete | mcp_intro/mix_server/github_mcp/tools/github_tools.py:577-614 | every non-empty status of a parsed record is listed |
| StatusSummary.ProgressOverview | mcp_intro/mix_server/github_mcp/tools/github_tools.py:581-622 | the first ten records with a progress value, in order, each with its epic name and status |
| StatusSummary.FlagGroups | mcp_intro/mix_server/github_mcp/tools/github_tools.py:588-641 | the first five records with risks (or scope changes), in order, each with epic, owner and exactly the first three items (all of a shorter list) |
| StatusSummary.GenerateStatusSummary | mcp_intro/mix_server/github_mcp/tools/github_tools.py:561-643 | the "no updates" sentinel is returned exactly when the update list is empty, even when no update carries parsed data |
| Cli.ParseInt | mcp_intro/github_workflows/epic_summary_generator.py:51 | `int()` accepts only an optional sign followed by digits |
| Cli.ParseIntRoundTrip | mcp_intro/github_workflows/epic_summary_generator.py:51 | `int(str(n)) == n` for every integer |
| Cli.ParseIntRejects | mcp_intro/github_workflows/epic_summary_generator.py:51-54 | a lone sign, or any non-digit after the first character, is rejected |
| Cli.TokenShape | mcp_intro/github_workflows/epic_summary_generator.py:49-50 | a kept line is stripped, non-empty and not a `#` comment |
| Cli.PartTokensShape | mcp_intro/github_workflows/epic_summary_generator.py:45-50 | every token of a part is such a line |
| Cli.InputTokensShape | mcp_intro/github_workflows/epic_summary_generator.py:44-50 | every token of the input is such a line |
| Cli.LineSkipped | mcp_intro/github_workflows/epic_summary_generator.py:48-50 | blank lines and comment lines contribute nothing |
| Cli.CommaFirst | mcp_intro/github_workflows/epic_summary_generator.py:43-48 | the input is cut at commas first: the tokens of `a,b` are those of `a`, then those of `b` |
| Cli.SingleToken | mcp_intro/github_workflows/epic_summary_generator.py:45-50 | a clean one-line part is a single token |
| Cli.TwoTokens | mcp_intro/github_workflows/epic_summary_generator.py:48-50 | a part of two clean lines yields both, in order |
| Cli.LinesThenComma | mcp_intro/github_workflows/epic_summary_generator.py:43-50 | lines and commas combine in input order |
| Cli.Convert | mcp_intro/github_workflows/epic_summary_generator.py:51-54 | each token ends up either read or skipped: as many numbers and skipped tokens together as tokens |
| Cli.ConvertSpec | mcp_intro/github_workflows/epic_summary_generator.py:51-54 | the numbers are the valid tokens' values in order, and every skipped token is one of the tokens and invalid |
| Cli.ValuesFromTokens | mcp_intro/github_workflows/epic_summary_generator.py:51-52 | every number read is the value of one of the tokens |
| Cli.ValuesConcat | mcp_intro/github_workflows/epic_summary_generator.py:44-52 | the values of concatenated tokens are concatenated, so input order is kept |
| Cli.ParseIssueNumbers | mcp_intro/github_workflows/epic_summary_generator.py:30-56 | no more numbers than tokens, so a bad token is skipped rather than aborting |
| Cli.ParseIssueNumbersSpec | mcp_intro/github_workflows/epic_summary_generator.py:30-56 | the output is the values of the valid tokens in order, each the value of some stripped, non-comment token |
| Cli.NewlineAndCommaExample | mcp_intro/github_workflows/epic_summary_generator.py:43-52 | `151\n152,153` reads as `[151, 152, 153]` |
| Cli.ValidateRepo | mcp_intro/github_workflows/epic_summary_generator.py:101-116 | the input comes back unchanged exactly when it holds one `/`; otherwise the error names it |
| Cli.ValidateRepoShape | mcp_intro/github_workflows/epic_summary_generator.py:114-116 | accepted exactly when the string is some `a/b` with no other `/` (`org/` included) |
| Cli.ValidateDate | mcp_intro/github_workflows/epic_summary_generator.py:81-98 | the input comes back unchanged exactly when it parses as a `YYYY-MM-DD` date; otherwise the error names it |
| Cli.ValidateIsoDate | mcp_intro/github_workflows/epic_summary_generator.py:94-96 | every calendar date in ISO form passes |

## Left out

- Network access is not modelled. `get_issues`, `get_issue_comments` and the token lookup perform HTTP and read the environment, so the collector takes issues with their comments already fetched.
- The clock is a parameter. `datetime.now()` becomes a `Clock`, and the report headers take the `Generated` timestamp as a string.
- Collector.WindowDaysBack: only the time of day matters in the `days_back` branch, and the clock reports it as a single flag (exactly midnight or not). The intermediate times are not modelled.
- Floating-point averages are omitted. "Average Updates per Issue" and "Average daily updates" (`:.1f`) are left out of the rendering. The views keep the integers they are computed from: the total, the number of distinct issues and the number of distinct days.
- JSON and dict coercion is not modelled. The report producers take a typed batch (repository, period, reported total, update records), so a missing key's `KeyError` path does not arise.
- Exception-to-message wrappers are not modelled. A failed date read is a `Failure` value rather than an "Error crawling…" string.
- Framework glue is left out: `@mcp.tool()` registration, `crawl_epic_updates`' serialisation and the dispatchers `process_dated_epic_update` and `get_epic_update_by_date_range`. These are thin glue over the modelled functions and I/O.
- The `.get(key, default)` fallbacks of the reports are not modelled. A parsed record always holds every key, so they never apply.
- `read_issues_from_file`, `generate_epic_summary` and `main` are left out: file I/O and `sys.exit`.
- `crawl_specific_issues` is imported by the examples and tests but defined in neither `github_tools.py`. It is not part of this model.
- Detector.DetectEpicUpdate: case is folded for ASCII letters only. Python's full Unicode upper-casing is not modelled.
- Cli.ParseInt: only an optional sign followed by ASCII digits is accepted. Python's `int()` also accepts underscores between digits and non-ASCII digits; such tokens are skipped here instead of read.
- Cli.ParseIntRoundTrip: holds for integers of any length. Since Python 3.11, `int()` rejects text of more than 4300 digits by default, so such a token is skipped by `parse_issue_numbers` but read by the model.
- Dates.ParseDate: reads ASCII digits only. `strptime`'s `%Y` and two-digit `%d` also accept other Unicode decimal digits, which the model rejects.
- Collector.LeadingDigits: takes ASCII digits only. The URL pattern's `\d+` also matches other Unicode decimal digits, so such a URL reads as `InvalidUrl` here.
- BoardReport.IsUpdateHeading: folds case for ASCII letters only. Python's `upper()` also maps letters such as the dotless `ı` onto `I`, so a few non-ASCII spellings of the headings are not recognised.
- Text.Strip: uses Python's `isspace` set of code points. Unicode data beyond that list is not consulted.
- The unit tests' concrete sample templates are not restated as lemmas. Examples are the 3/2/3 list lengths and the `@user1` contributor count. SectionLists, ScalarLastWins and TopContributors state the general rules those samples instantiate.
- `parse_issue_numbers` skips an invalid token with a warning, and the model follows it. The repository's test `test_crawl_epic_updates_invalid_issue_numbers` expects an "Error parsing issue numbers" reply from an `issue_numbers` argument of `crawl_epic_updates`. The `crawl_epic_updates` in `github_tools.py` has no such parameter, so that behaviour is not modelled.
