/** The command-line helpers of the summary generator: the issue-number list
    reader and the repository and date validators. */
module Cli {
  import opened Wrappers
  import opened Text
  import opened Dates
  import opened Ranking

  // ---------------------------------------------------------------------------
  // int()
  // ---------------------------------------------------------------------------

  predicate IsSign(c: char) {
    c == '-' || c == '+'
  }

  /** Python `int(t)` on a stripped token: an optional sign followed by one
      or more decimal digits; anything else is rejected. */
  function ParseInt(t: string): (r: Option<int>)
    ensures r.Some? ==> |t| > 0 && (IsDigit(t[0]) || IsSign(t[0]))
    ensures r.Some? ==> forall i :: 1 <= i < |t| ==> IsDigit(t[i])
  {
    if |t| > 1 && IsSign(t[0]) && AllDigits(t[1..]) then
      var v: int := DigitsValue(t[1..]);
      Some(if t[0] == '-' then -v else v)
    else if |t| > 0 && AllDigits(t) then
      Some(DigitsValue(t))
    else
      None
  }

  /** `int(str(n)) == n`. */
  lemma ParseIntRoundTrip(n: int)
    ensures ParseInt(IntToString(n)) == Some(n)
  {
    if n < 0 {
      assert IntToString(n)[1..] == NatToString(-n);
    }
  }

  /** A sign alone, or any character other than a digit after the first,
      makes the token invalid. */
  lemma ParseIntRejects(t: string, i: nat)
    requires i < |t| && !IsDigit(t[i]) && (i > 0 || !IsSign(t[0]) || |t| == 1)
    ensures ParseInt(t) == None
  {
  }

  // ---------------------------------------------------------------------------
  // parse_issue_numbers
  // ---------------------------------------------------------------------------

  /** A stripped line that names an issue: not empty and not a comment. */
  predicate IsToken(line: string) {
    line != "" && !StartsWith(line, "#")
  }

  /** Each line stripped. */
  function StripAll(lines: seq<string>): (r: seq<string>)
    ensures |r| == |lines| && forall i :: 0 <= i < |lines| ==> r[i] == Strip(lines[i])
  {
    if |lines| == 0 then [] else [Strip(lines[0])] + StripAll(lines[1..])
  }

  lemma {:induction false} StripAllConcat(a: seq<string>, b: seq<string>)
    ensures StripAll(a + b) == StripAll(a) + StripAll(b)
  {
    if |a| == 0 {
      assert a + b == b;
    } else {
      assert (a + b)[0] == a[0] && (a + b)[1..] == a[1..] + b;
      StripAllConcat(a[1..], b);
    }
  }

  /** The concatenation of `f` over the elements, in order. */
  function FlatMap<T, U>(f: T -> seq<U>, s: seq<T>): seq<U> {
    if |s| == 0 then [] else f(s[0]) + FlatMap(f, s[1..])
  }

  lemma {:induction false} FlatMapConcat<T, U>(f: T -> seq<U>, a: seq<T>, b: seq<T>)
    ensures FlatMap(f, a + b) == FlatMap(f, a) + FlatMap(f, b)
  {
    if |a| == 0 {
      assert a + b == b;
    } else {
      assert (a + b)[0] == a[0] && (a + b)[1..] == a[1..] + b;
      FlatMapConcat(f, a[1..], b);
    }
  }

  /** Every element of the result comes from one of the elements. */
  lemma {:induction false} FlatMapFrom<T, U>(f: T -> seq<U>, s: seq<T>, i: nat)
    requires i < |FlatMap(f, s)|
    ensures exists k :: 0 <= k < |s| && FlatMap(f, s)[i] in f(s[k])
  {
    var head := f(s[0]);
    if i < |head| {
      assert FlatMap(f, s)[i] == head[i];
    } else {
      FlatMapFrom(f, s[1..], i - |head|);
      var k :| 0 <= k < |s[1..]| && FlatMap(f, s[1..])[i - |head|] in f(s[1..][k]);
      assert s[k + 1] == s[1..][k];
      assert FlatMap(f, s)[i] in f(s[k + 1]);
    }
  }

  /** The tokens of one comma-separated part: its lines, stripped, without
      blank and comment lines. */
  function PartTokens(part: string): seq<string> {
    var p := Strip(part);
    if p == "" then [] else Filter(IsToken, StripAll(Split(p, '\n')))
  }

  /** The tokens of the whole input, part after part. */
  function InputTokens(input: string): seq<string> {
    FlatMap(PartTokens, Split(input, ','))
  }

  /** The numbers read and the tokens skipped with a warning. */
  datatype IssueList = IssueList(numbers: seq<int>, skipped: seq<string>)

  function Convert(tokens: seq<string>): (r: IssueList)
    ensures |r.numbers| + |r.skipped| == |tokens|
  {
    if |tokens| == 0 then IssueList([], [])
    else
      var rest := Convert(tokens[1..]);
      match ParseInt(tokens[0])
      case Some(n) => IssueList([n] + rest.numbers, rest.skipped)
      case None => IssueList(rest.numbers, [tokens[0]] + rest.skipped)
  }

  /** `parse_issue_numbers`: the numbers, in input order; an invalid token
      is skipped (the warning it prints is the `skipped` list) and never
      aborts the parse. */
  function ParseIssueNumbers(input: string): (r: IssueList)
    ensures |r.numbers| <= |InputTokens(input)|
  {
    Convert(InputTokens(input))
  }

  /** What every token is: stripped, not empty and not a comment. */
  predicate IsClean(t: string) {
    t != "" && t[0] != '#' && Strip(t) == t
  }

  /** A line kept as a token is stripped, not empty and not a comment. */
  lemma TokenShape(line: string)
    requires IsToken(Strip(line))
    ensures IsClean(Strip(line))
  {
    StripIdempotent(line);
    assert Strip(line)[..1] == [Strip(line)[0]];
  }

  /** The tokens of a part are stripped, non-empty lines that are not
      comments. */
  lemma PartTokensShape(part: string)
    ensures forall i :: 0 <= i < |PartTokens(part)| ==> IsClean(PartTokens(part)[i])
  {
    var p := Strip(part);
    if p != "" {
      var raw := Split(p, '\n');
      var lines := StripAll(raw);
      var ts := Filter(IsToken, lines);
      forall i | 0 <= i < |ts|
        ensures IsClean(ts[i])
      {
        assert ts[i] in lines && IsToken(ts[i]);
        var k :| 0 <= k < |lines| && lines[k] == ts[i];
        TokenShape(raw[k]);
      }
      assert PartTokens(part) == ts;
    }
  }

  /** Every token of the input is a stripped, non-empty line that is not a
      comment. */
  lemma InputTokensShape(input: string)
    ensures forall i :: 0 <= i < |InputTokens(input)| ==> IsClean(InputTokens(input)[i])
  {
    var parts := Split(input, ',');
    var ts := InputTokens(input);
    forall i | 0 <= i < |ts|
      ensures IsClean(ts[i])
    {
      FlatMapFrom(PartTokens, parts, i);
      var k :| 0 <= k < |parts| && ts[i] in PartTokens(parts[k]);
      PartTokensShape(parts[k]);
    }
  }

  /** The conversion keeps the valid tokens' values, in order, and collects
      the invalid ones, in order. */
  lemma {:induction false} ConvertSpec(tokens: seq<string>)
    ensures Convert(tokens).numbers == Values(tokens)
    ensures forall i :: 0 <= i < |Convert(tokens).skipped| ==>
      Convert(tokens).skipped[i] in tokens && ParseInt(Convert(tokens).skipped[i]).None?
  {
    if |tokens| > 0 {
      ConvertSpec(tokens[1..]);
      var rest := Convert(tokens[1..]);
      assert forall i :: 0 <= i < |rest.skipped| ==> rest.skipped[i] in tokens;
    }
  }

  /** The values of the valid tokens, in order. */
  function Values(tokens: seq<string>): seq<int> {
    if |tokens| == 0 then []
    else (if ParseInt(tokens[0]).Some? then [ParseInt(tokens[0]).value] else []) + Values(tokens[1..])
  }

  /** Every number read is the value of one of the tokens. */
  lemma {:induction false} ValuesFromTokens(tokens: seq<string>, i: nat)
    requires i < |Values(tokens)|
    ensures exists k :: 0 <= k < |tokens| && ParseInt(tokens[k]) == Some(Values(tokens)[i])
  {
    var head := if ParseInt(tokens[0]).Some? then [ParseInt(tokens[0]).value] else [];
    if i < |head| {
      assert ParseInt(tokens[0]) == Some(Values(tokens)[i]);
    } else {
      ValuesFromTokens(tokens[1..], i - |head|);
      var k :| 0 <= k < |tokens[1..]| && ParseInt(tokens[1..][k]) == Some(Values(tokens[1..])[i - |head|]);
      assert tokens[k + 1] == tokens[1..][k];
      assert ParseInt(tokens[k + 1]) == Some(Values(tokens)[i]);
    }
  }

  /** Every valid token's value is read: the tokens' values appear in the
      output in input order, each once per occurrence. */
  lemma {:induction false} ValuesConcat(a: seq<string>, b: seq<string>)
    ensures Values(a + b) == Values(a) + Values(b)
  {
    if |a| == 0 {
      assert a + b == b;
    } else {
      assert (a + b)[0] == a[0] && (a + b)[1..] == a[1..] + b;
      ValuesConcat(a[1..], b);
    }
  }

  /** Blank lines and comment lines inside a part contribute nothing. */
  lemma LineSkipped(a: seq<string>, line: string, b: seq<string>)
    requires !IsToken(Strip(line))
    ensures Filter(IsToken, StripAll(a + [line] + b)) == Filter(IsToken, StripAll(a + b))
  {
    StripAllConcat(a + [line], b);
    StripAllConcat(a, [line]);
    StripAllConcat(a, b);
    assert StripAll([line]) == [Strip(line)];
    FilterSkips(IsToken, StripAll(a), Strip(line), StripAll(b));
  }

  /** The conversion outputs the values of the valid tokens, in order, and
      each number is the value of one of the tokens. */
  lemma ConvertValues(tokens: seq<string>)
    ensures Convert(tokens).numbers == Values(tokens)
    ensures forall i :: 0 <= i < |Convert(tokens).numbers| ==>
      exists k :: 0 <= k < |tokens| && ParseInt(tokens[k]) == Some(Convert(tokens).numbers[i])
  {
    ConvertSpec(tokens);
    forall i | 0 <= i < |Values(tokens)|
      ensures exists k :: 0 <= k < |tokens| && ParseInt(tokens[k]) == Some(Values(tokens)[i])
    {
      ValuesFromTokens(tokens, i);
    }
  }

  /** `parse_issue_numbers` outputs the values of the valid tokens of the
      input, in order, and each number is the value of one of them. */
  lemma ParseIssueNumbersSpec(input: string)
    ensures var ts := InputTokens(input);
      && ParseIssueNumbers(input).numbers == Values(ts)
      && forall i :: 0 <= i < |ParseIssueNumbers(input).numbers| ==>
           exists k :: 0 <= k < |ts| && ParseInt(ts[k]) == Some(ParseIssueNumbers(input).numbers[i])
  {
    ConvertValues(InputTokens(input));
  }

  /** The input is split on commas first: the tokens of `a,b` are those of
      the part `a` followed by those of `b`. */
  lemma CommaFirst(a: string, b: string)
    requires ',' !in a
    ensures InputTokens(a + [','] + b) == PartTokens(a) + InputTokens(b)
  {
    SplitCons(a, ',', b);
    var rest := Split(b, ',');
    assert ([a] + rest)[0] == a && ([a] + rest)[1..] == rest;
  }

  /** A part free of blanks at its ends and of newlines that is a valid
      token. */
  lemma SingleToken(t: string)
    requires |t| > 0 && !IsSpace(t[0]) && !IsSpace(t[|t| - 1]) && t[0] != '#'
    requires '\n' !in t
    ensures PartTokens(t) == [t]
  {
    StripUnchanged(t);
    SplitSingle(t, '\n');
    assert StripAll([t]) == [Strip(t)];
    assert t[..1] == [t[0]];
    assert IsToken(t);
    assert Filter(IsToken, [t]) == [t] + Filter(IsToken, [t][1..]);
  }

  /** A part of two such tokens on two lines. */
  lemma TwoTokens(x: string, y: string)
    requires |x| > 0 && !IsSpace(x[0]) && !IsSpace(x[|x| - 1]) && x[0] != '#' && '\n' !in x
    requires |y| > 0 && !IsSpace(y[0]) && !IsSpace(y[|y| - 1]) && y[0] != '#' && '\n' !in y
    ensures PartTokens(x + ['\n'] + y) == [x, y]
  {
    var part := x + ['\n'] + y;
    assert part[0] == x[0] && part[|part| - 1] == y[|y| - 1];
    StripUnchanged(part);
    SplitCons(x, '\n', y);
    SplitSingle(y, '\n');
    StripUnchanged(x);
    StripUnchanged(y);
    assert StripAll([x, y]) == [x, y];
    assert x[..1] == [x[0]] && y[..1] == [y[0]];
    assert Filter(IsToken, [y]) == [y] + Filter(IsToken, [y][1..]);
    assert Filter(IsToken, [x, y]) == [x] + Filter(IsToken, [x, y][1..]);
  }

  lemma ConvertDigits()
    ensures Convert(["151", "152", "153"]).numbers == [151, 152, 153]
  {
    var ts := ["151", "152", "153"];
    ThreeDigits("151", 151);
    ThreeDigits("152", 152);
    ThreeDigits("153", 153);
    assert ts[1..][1..][1..] == [];
    assert Convert(ts[1..][1..]).numbers == [153];
    assert Convert(ts[1..]).numbers == [152, 153];
  }

  /** A three-digit token without a sign reads as its decimal value. */
  lemma ThreeDigits(t: string, n: nat)
    requires |t| == 3 && IsDigit(t[0]) && IsDigit(t[1]) && IsDigit(t[2])
    requires n == DigitValue(t[0]) * 100 + DigitValue(t[1]) * 10 + DigitValue(t[2])
    ensures ParseInt(t) == Some(n)
  {
    assert AllDigits(t);
    assert t[..2][..1] == t[..1] && t[..1][..0] == [];
    assert t[..2][1] == t[1] && t[..1][0] == t[0];
    assert DigitsValue(t[..1]) == DigitValue(t[0]);
    assert DigitsValue(t[..2]) == DigitValue(t[0]) * 10 + DigitValue(t[1]);
    assert DigitsValue(t) == n;
    assert !IsSign(t[0]);
  }

  /** A single clean token free of commas is the whole input's one token. */
  lemma SingleInput(z: string)
    requires |z| > 0 && !IsSpace(z[0]) && !IsSpace(z[|z| - 1]) && z[0] != '#' && '\n' !in z && ',' !in z
    ensures InputTokens(z) == [z]
  {
    SplitSingle(z, ',');
    SingleToken(z);
    assert InputTokens(z) == PartTokens(z) + FlatMap(PartTokens, []);
  }

  lemma NoCommaJoined(x: string, y: string)
    requires ',' !in x && ',' !in y
    ensures ',' !in x + ['\n'] + y
  {
    var a := x + ['\n'] + y;
    forall k | 0 <= k < |a| ensures a[k] != ',' {
      if k < |x| { assert a[k] == x[k]; }
      else if k > |x| { assert a[k] == y[k - |x| - 1]; }
    }
  }

  /** Two tokens on two lines, a comma, then a third token. */
  lemma LinesThenComma(x: string, y: string, z: string)
    requires |x| > 0 && !IsSpace(x[0]) && !IsSpace(x[|x| - 1]) && x[0] != '#' && '\n' !in x && ',' !in x
    requires |y| > 0 && !IsSpace(y[0]) && !IsSpace(y[|y| - 1]) && y[0] != '#' && '\n' !in y && ',' !in y
    requires |z| > 0 && !IsSpace(z[0]) && !IsSpace(z[|z| - 1]) && z[0] != '#' && '\n' !in z && ',' !in z
    ensures InputTokens(x + ['\n'] + y + [','] + z) == [x, y, z]
  {
    NoCommaJoined(x, y);
    CommaFirst(x + ['\n'] + y, z);
    SingleInput(z);
    TwoTokens(x, y);
  }

  /** The tokens of `151\n152,153`. */
  lemma ExampleTokens()
    ensures InputTokens("151\n152,153") == ["151", "152", "153"]
  {
    assert "151\n152,153" == "151" + ['\n'] + "152" + [','] + "153";
    LinesThenComma("151", "152", "153");
  }

  /** Example from the generator's usage: `151\n152,153` reads as the issues
      151, 152 and 153. */
  lemma NewlineAndCommaExample()
    ensures ParseIssueNumbers("151\n152,153").numbers == [151, 152, 153]
  {
    ExampleTokens();
    ConvertDigits();
  }

  // ---------------------------------------------------------------------------
  // validate_repo and validate_date
  // ---------------------------------------------------------------------------

  /** `validate_repo`: the input back when it holds exactly one `/`. */
  function ValidateRepo(s: string): (r: Result<string, string>)
    ensures r.Success? <==> Count(s, '/') == 1
    ensures r.Success? ==> r.value == s
    ensures r.Failure? ==> r.error == "Invalid repository format: " + s + ". Use 'org/repo' format."
  {
    if Count(s, '/') != 1 then Failure("Invalid repository format: " + s + ". Use 'org/repo' format.")
    else Success(s)
  }

  /** The halves around a `/` free of any other `/` account for the only
      one. */
  lemma OneSlash(s: string, k: nat)
    requires k < |s| && s[k] == '/' && '/' !in s[..k] && '/' !in s[k + 1..]
    ensures Count(s, '/') == 1
  {
    assert s == s[..k] + [s[k]] + s[k + 1..];
    assert multiset(s) == multiset(s[..k]) + multiset([s[k]]) + multiset(s[k + 1..]);
  }

  /** A string with one `/` splits around it. */
  lemma SlashSplit(s: string)
    requires Count(s, '/') == 1
    ensures var k := FirstIndex(s, '/'); '/' !in s[..k] && '/' !in s[k + 1..]
  {
    assert '/' in multiset(s);
    var k := FirstIndex(s, '/');
    assert s == s[..k] + [s[k]] + s[k + 1..];
    assert multiset(s) == multiset(s[..k]) + multiset([s[k]]) + multiset(s[k + 1..]);
    assert multiset(s[k + 1..])['/'] == 0;
  }

  /** A repository string is accepted exactly when it is some `owner/name`
      whose two halves hold no `/` (either may be empty: `org/` passes). */
  lemma ValidateRepoShape(s: string)
    ensures ValidateRepo(s).Success? <==>
      exists k :: 0 <= k < |s| && s[k] == '/' && '/' !in s[..k] && '/' !in s[k + 1..]
  {
    if exists k :: 0 <= k < |s| && s[k] == '/' && '/' !in s[..k] && '/' !in s[k + 1..] {
      var k :| 0 <= k < |s| && s[k] == '/' && '/' !in s[..k] && '/' !in s[k + 1..];
      OneSlash(s, k);
    }
    if Count(s, '/') == 1 {
      SlashSplit(s);
    }
  }

  /** `validate_date`: the input back when `strptime(s, '%Y-%m-%d')`
      accepts it. */
  function ValidateDate(s: string): (r: Result<string, string>)
    ensures r.Success? <==> ParseDate(s).Some?
    ensures r.Success? ==> r.value == s
    ensures r.Failure? ==> r.error == "Invalid date format: " + s + ". Use YYYY-MM-DD format."
  {
    if ParseDate(s).None? then Failure("Invalid date format: " + s + ". Use YYYY-MM-DD format.")
    else Success(s)
  }

  /** Every calendar date in ISO form passes. */
  lemma ValidateIsoDate(d: Date)
    requires Valid(d)
    ensures ValidateDate(IsoFormat(d)) == Success(IsoFormat(d))
  {
    ParseIsoFormat(d);
  }
}
