/** The EPIC-update template parser (`GitHubIssueCrawler.parse_epic_template`):
    one forward pass over the comment's lines with a single piece of state,
    the section the last header opened. */
module Parser {
  import opened Wrappers
  import opened Text

  /** The five list sections of the template. */
  datatype Section = WhatHappened | ScopeChanges | RisksBlockers | NextSteps | MetricsDeliverables

  /** The five labelled scalar fields of the template. */
  datatype Scalar = DateField | OwnerField | EpicField | StatusField | ProgressField

  /** `ParsedEpicData`. */
  datatype ParsedFields = ParsedFields(
    date: string,
    owner: string,
    epicName: string,
    status: string,
    progress: string,
    whatHappened: seq<string>,
    scopeChanges: seq<string>,
    risksBlockers: seq<string>,
    nextSteps: seq<string>,
    metricsDeliverables: seq<string>)
  {
    function Get(f: Scalar): string {
      match f
      case DateField => date
      case OwnerField => owner
      case EpicField => epicName
      case StatusField => status
      case ProgressField => progress
    }

    function Items(s: Section): seq<string> {
      match s
      case WhatHappened => whatHappened
      case ScopeChanges => scopeChanges
      case RisksBlockers => risksBlockers
      case NextSteps => nextSteps
      case MetricsDeliverables => metricsDeliverables
    }

    /** Overwrites one scalar field; everything else is kept. */
    function Set(f: Scalar, v: string): (r: ParsedFields)
      ensures r.Get(f) == v
      ensures forall g :: g != f ==> r.Get(g) == Get(g)
      ensures forall s :: r.Items(s) == Items(s)
    {
      match f
      case DateField => this.(date := v)
      case OwnerField => this.(owner := v)
      case EpicField => this.(epicName := v)
      case StatusField => this.(status := v)
      case ProgressField => this.(progress := v)
    }

    /** Appends one item to one section's list; everything else is kept. */
    function Append(s: Section, item: string): (r: ParsedFields)
      ensures r.Items(s) == Items(s) + [item]
      ensures forall t :: t != s ==> r.Items(t) == Items(t)
      ensures forall g :: r.Get(g) == Get(g)
    {
      match s
      case WhatHappened => this.(whatHappened := whatHappened + [item])
      case ScopeChanges => this.(scopeChanges := scopeChanges + [item])
      case RisksBlockers => this.(risksBlockers := risksBlockers + [item])
      case NextSteps => this.(nextSteps := nextSteps + [item])
      case MetricsDeliverables => this.(metricsDeliverables := metricsDeliverables + [item])
    }

    /** How many list items the record holds across all five sections. */
    function TotalItems(): nat {
      |whatHappened| + |scopeChanges| + |risksBlockers| + |nextSteps| + |metricsDeliverables|
    }
  }

  /** The record the parser starts from: every scalar `""`, every list empty. */
  const Blank: ParsedFields := ParsedFields("", "", "", "", "", [], [], [], [], [])

  function Label(f: Scalar): string {
    match f
    case DateField => "**Date:**"
    case OwnerField => "**Owner:**"
    case EpicField => "**Epic:**"
    case StatusField => "- **Current status:**"
    case ProgressField => "- **Progress (%):**"
  }

  function Header(s: Section): string {
    match s
    case WhatHappened => "### What happened since last update"
    case ScopeChanges => "### Scope changes"
    case RisksBlockers => "### Risks / blockers"
    case NextSteps => "### Next steps (with owners & dates)"
    case MetricsDeliverables => "### Metrics / deliverables"
  }

  /** The status rule: when the text contains `_`, the part after the first
      `_` up to the second `_` (or the end), stripped; otherwise the text
      itself. */
  function StatusValue(text: string): string {
    if '_' in text then Strip(Split(text, '_')[1]) else text
  }

  /** What a labelled line assigns: the line with every occurrence of the label
      deleted, stripped, and for the status the status rule applied. */
  function LabelValue(f: Scalar, line: string): string {
    var v := Strip(RemoveAll(line, Label(f)));
    if f == StatusField then StatusValue(v) else v
  }

  /** How the parser reads one stripped line; the order of the tests is the
      priority of the rules. */
  datatype LineKind =
    | Empty
    | Labelled(field: Scalar, value: string)
    | Opens(section: Section)
    | Bullet(item: string)
    | Ignored

  function LabelledAs(line: string): Option<Scalar> {
    if StartsWith(line, Label(DateField)) then Some(DateField)
    else if StartsWith(line, Label(OwnerField)) then Some(OwnerField)
    else if StartsWith(line, Label(EpicField)) then Some(EpicField)
    else if StartsWith(line, Label(StatusField)) then Some(StatusField)
    else if StartsWith(line, Label(ProgressField)) then Some(ProgressField)
    else None
  }

  function HeaderOf(line: string): Option<Section> {
    if line == Header(WhatHappened) then Some(WhatHappened)
    else if line == Header(ScopeChanges) then Some(ScopeChanges)
    else if line == Header(RisksBlockers) then Some(RisksBlockers)
    else if line == Header(NextSteps) then Some(NextSteps)
    else if line == Header(MetricsDeliverables) then Some(MetricsDeliverables)
    else None
  }

  function Classify(raw: string): LineKind {
    var line := Strip(raw);
    if line == "" then Empty
    else match LabelledAs(line)
      case Some(f) => Labelled(f, LabelValue(f, line))
      case None =>
        match HeaderOf(line)
        case Some(s) => Opens(s)
        case None =>
          if StartsWith(line, "- ") then Bullet(Strip(line[2..])) else Ignored
  }

  /** The fold's state: the record so far and `current_section`. */
  datatype State = State(fields: ParsedFields, current: Option<Section>)

  /** One iteration of the parser's loop, given how the line reads. */
  function Step(st: State, k: LineKind): State {
    match k
    case Labelled(f, v) => State(st.fields.Set(f, v), st.current)
    case Opens(s) => State(st.fields, Some(s))
    case Bullet(item) =>
      if st.current.Some? then State(st.fields.Append(st.current.value, item), st.current) else st
    case _ => st
  }

  /** How each line of the comment reads. */
  function Lines(body: string): (kinds: seq<LineKind>)
    ensures |kinds| == |Split(body, '\n')|
    ensures forall i :: 0 <= i < |kinds| ==> kinds[i] == Classify(Split(body, '\n')[i])
  {
    var lines := Split(body, '\n');
    seq(|lines|, i requires 0 <= i < |lines| => Classify(lines[i]))
  }

  /** The state after the first `n` lines. */
  function After(kinds: seq<LineKind>, n: nat): State
    requires n <= |kinds|
  {
    if n == 0 then State(Blank, None) else Step(After(kinds, n - 1), kinds[n - 1])
  }

  /** `parse_epic_template`. On total string functions nothing can raise, so
      the `None` result of the exception handler is never produced. */
  function ParseEpicTemplate(body: string): ParsedFields {
    var kinds := Lines(body);
    After(kinds, |kinds|).fields
  }

  // ---------------------------------------------------------------------------
  // The rules, one line at a time
  // ---------------------------------------------------------------------------

  /** No label starts with `#`, so header-like lines are never labelled. */
  lemma NotLabelled(line: string)
    requires |line| > 0 && line[0] != '*' && line[0] != '-'
    ensures LabelledAs(line) == None
  {
    forall f: Scalar
      ensures !StartsWith(line, Label(f))
    {
      assert Label(f)[0] == '*' || Label(f)[0] == '-';
    }
  }

  /** The five headers are told apart by their lengths alone. */
  lemma HeaderOfHeader(s: Section)
    ensures HeaderOf(Header(s)) == Some(s)
  {
  }

  /** A line that is exactly a header moves the current section and changes
      no field. */
  lemma HeaderLine(st: State, raw: string, s: Section)
    requires Strip(raw) == Header(s)
    ensures Step(st, Classify(raw)) == State(st.fields, Some(s))
  {
    var line := Strip(raw);
    assert line[0] == '#';
    NotLabelled(line);
    HeaderOfHeader(s);
    assert Classify(raw) == Opens(s);
  }

  /** The status label is recognised as such: it is not also one of the
      earlier-tested labels. */
  lemma StatusLabelled(line: string)
    requires StartsWith(line, Label(StatusField))
    ensures LabelledAs(line) == Some(StatusField)
  {
    assert line[0] == '-';
  }

  /** Labelled lines take priority over bullets: `- **Current status:** ...`
      inside a section sets the status and is not appended to the section. */
  lemma StatusLineInSection(st: State, raw: string)
    requires StartsWith(Strip(raw), Label(StatusField))
    ensures forall s :: Step(st, Classify(raw)).fields.Items(s) == st.fields.Items(s)
    ensures Step(st, Classify(raw)).fields.status == LabelValue(StatusField, Strip(raw))
    ensures Step(st, Classify(raw)).current == st.current
  {
    var line := Strip(raw);
    assert line != [];
    StatusLabelled(line);
    assert Classify(raw) == Labelled(StatusField, LabelValue(StatusField, line));
  }

  /** A bullet before any header changes nothing. */
  lemma BulletOutsideSection(fields: ParsedFields, item: string)
    ensures Step(State(fields, None), Bullet(item)) == State(fields, None)
  {
  }

  // ---------------------------------------------------------------------------
  // The whole pass, stated without the fold
  // ---------------------------------------------------------------------------

  /** The section opened by the last header among the first `n` lines. */
  function Governing(kinds: seq<LineKind>, n: nat): Option<Section>
    requires n <= |kinds|
  {
    if n == 0 then None
    else if kinds[n - 1].Opens? then Some(kinds[n - 1].section)
    else Governing(kinds, n - 1)
  }

  predicate IsLabelled(k: LineKind, f: Scalar) {
    k.Labelled? && k.field == f
  }

  /** Line `i` is a bullet that the parser files under section `s`. */
  predicate FiledUnder(kinds: seq<LineKind>, i: nat, s: Section)
    requires i < |kinds|
  {
    kinds[i].Bullet? && Governing(kinds, i) == Some(s)
  }

  /** The items of the bullet lines among the first `n` that are filed under
      `s`, in line order. */
  function FiledItems(kinds: seq<LineKind>, n: nat, s: Section): seq<string>
    requires n <= |kinds|
  {
    if n == 0 then []
    else FiledItems(kinds, n - 1, s) + (if FiledUnder(kinds, n - 1, s) then [kinds[n - 1].item] else [])
  }

  /** The current section after `n` lines is the one the last header opened. */
  lemma {:induction false} CurrentSection(kinds: seq<LineKind>, n: nat)
    requires n <= |kinds|
    ensures After(kinds, n).current == Governing(kinds, n)
  {
    if n > 0 {
      CurrentSection(kinds, n - 1);
    }
  }

  /** Each section's list holds exactly the items of the bullet lines filed
      under it, in input order. */
  lemma {:induction false} SectionLists(kinds: seq<LineKind>, n: nat, s: Section)
    requires n <= |kinds|
    ensures After(kinds, n).fields.Items(s) == FiledItems(kinds, n, s)
  {
    if n > 0 {
      SectionLists(kinds, n - 1, s);
      CurrentSection(kinds, n - 1);
    }
  }

  lemma StepScalar(st: State, k: LineKind, f: Scalar)
    ensures Step(st, k).fields.Get(f) == if IsLabelled(k, f) then k.value else st.fields.Get(f)
  {
  }

  /** A scalar no line labels keeps its default `""`. */
  lemma {:induction false} ScalarDefault(kinds: seq<LineKind>, n: nat, f: Scalar)
    requires n <= |kinds|
    requires forall i :: 0 <= i < n ==> !IsLabelled(kinds[i], f)
    ensures After(kinds, n).fields.Get(f) == ""
  {
    if n > 0 {
      ScalarDefault(kinds, n - 1, f);
      StepScalar(After(kinds, n - 1), kinds[n - 1], f);
    }
  }

  /** A labelled scalar holds the value of the last line carrying its label:
      a later labelled line overwrites an earlier one. */
  lemma {:induction false} ScalarLastWins(kinds: seq<LineKind>, n: nat, f: Scalar, i: nat)
    requires i < n <= |kinds|
    requires IsLabelled(kinds[i], f)
    requires forall j :: i < j < n ==> !IsLabelled(kinds[j], f)
    ensures After(kinds, n).fields.Get(f) == kinds[i].value
  {
    StepScalar(After(kinds, n - 1), kinds[n - 1], f);
    if i < n - 1 {
      ScalarLastWins(kinds, n - 1, f, i);
    }
  }

  /** Every line adds at most one list item. */
  lemma {:induction false} ItemsBoundedByLines(kinds: seq<LineKind>, n: nat)
    requires n <= |kinds|
    ensures After(kinds, n).fields.TotalItems() <= n
  {
    if n > 0 {
      ItemsBoundedByLines(kinds, n - 1);
    }
  }

  /** A section whose header never appears keeps its empty list. */
  lemma {:induction false} AbsentSectionEmpty(kinds: seq<LineKind>, n: nat, s: Section)
    requires n <= |kinds|
    requires forall i :: 0 <= i < n ==> kinds[i] != Opens(s)
    ensures FiledItems(kinds, n, s) == []
    ensures Governing(kinds, n) != Some(s)
  {
    if n > 0 {
      AbsentSectionEmpty(kinds, n - 1, s);
    }
  }

  /** The parser's result on a whole comment: defaults when absent, last
      labelled value when present, the filed bullet items per section, and no
      more items than lines. */
  lemma ParseEpicTemplateSpec(body: string)
    ensures var kinds := Lines(body);
      && (forall s :: ParseEpicTemplate(body).Items(s) == FiledItems(kinds, |kinds|, s))
      && ParseEpicTemplate(body).TotalItems() <= |kinds|
      && (forall f :: (forall i :: 0 <= i < |kinds| ==> !IsLabelled(kinds[i], f)) ==> ParseEpicTemplate(body).Get(f) == "")
  {
    var kinds := Lines(body);
    forall s {
      SectionLists(kinds, |kinds|, s);
    }
    forall f | forall i :: 0 <= i < |kinds| ==> !IsLabelled(kinds[i], f)
      ensures ParseEpicTemplate(body).Get(f) == ""
    {
      ScalarDefault(kinds, |kinds|, f);
    }
    ItemsBoundedByLines(kinds, |kinds|);
  }

  // ---------------------------------------------------------------------------
  // The status rule
  // ---------------------------------------------------------------------------

  /** A labelled line whose value does not repeat the label reads as that
      value, stripped (and, for the status, put through the status rule). */
  lemma LabelledValue(f: Scalar, v: string)
    requires !Contains(v, Label(f))
    ensures LabelValue(f, Label(f) + v) == if f == StatusField then StatusValue(Strip(v)) else Strip(v)
  {
    var p := Label(f);
    assert |p| > 0;
    assert (p + v)[..|p|] == p && (p + v)[|p|..] == v;
    RemoveAllAbsent(v, p);
  }

  /** The template's own date line: `**Date:** 2025-01-15` reads as
      `2025-01-15`. */
  lemma DateLine()
    ensures LabelValue(DateField, "**Date:** 2025-01-15") == "2025-01-15"
  {
    var x := "2025-01-15";
    assert "**Date:** 2025-01-15" == Label(DateField) + ([' '] + x);
    assert forall k :: 0 <= k < |x| ==> x[k] != '*' && !IsSpace(x[k]);
    Unlabelled([' '] + x, Label(DateField));
    LabelledValue(DateField, [' '] + x);
    OneLeadingSpace(x);
  }

  /** A text without the label's first character cannot contain the label. */
  lemma Unlabelled(v: string, p: string)
    requires |p| > 0 && forall k :: 0 <= k < |v| ==> v[k] != p[0]
    ensures !Contains(v, p)
  {
    forall i | 0 <= i <= |v| - |p|
      ensures !OccursAt(v, p, i)
    {
      assert v[i..i + |p|][0] == v[i];
    }
  }

  /** Stripping a single leading space from a text that starts and ends
      with a non-space. */
  lemma OneLeadingSpace(x: string)
    requires |x| > 0 && !IsSpace(x[0]) && !IsSpace(x[|x| - 1])
    ensures Strip([' '] + x) == x
  {
    var v := [' '] + x;
    assert IsSpace(v[0]) && v[1] == x[0] && v[|v| - 1] == x[|x| - 1];
    assert SkipSpace(v, 1) == 1;
    assert SkipSpace(v, 0) == 1;
    assert SkipSpaceBack(v, 1, |v|) == |v|;
    assert v[1..] == x;
  }

  /** The status is the stripped text between the first `_` and the next `_`
      (or the end of the text); text without `_` is taken verbatim. */
  lemma StatusRule(a: string, b: string, c: string)
    requires '_' !in a && '_' !in b
    requires c == [] || c[0] == '_'
    ensures StatusValue(a + "_" + b + c) == Strip(b)
    ensures '_' !in a ==> StatusValue(a) == a
  {
    var t := a + "_" + b + c;
    assert '_' in t by {
      assert t[|a|] == '_';
    }
    SplitCons(a, '_', b + c);
    assert t == a + ['_'] + (b + c);
    if c == [] {
      assert b + c == b;
      SplitSingle(b, '_');
    } else {
      assert b + c == b + ['_'] + c[1..];
      SplitCons(b, '_', c[1..]);
    }
  }

  /** The template's own example: `_On Track_` reads as `On Track`. */
  lemma OnTrackStatus()
    ensures StatusValue("_On Track_") == "On Track"
  {
    assert "_On Track_" == "" + "_" + "On Track" + "_";
    StatusRule("", "On Track", "_");
    StripUnchanged("On Track");
  }
}
