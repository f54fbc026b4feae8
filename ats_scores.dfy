/**
 * The six-score reader of the ATS scanner page.
 *
 * The scoring model answers in free text. The page pulls every run of decimal
 * digits out of that text, each optionally followed by `%` (the pattern
 * `(\d+)%?` under `re.findall`), accepts the answer only when exactly six runs
 * were found, and binds them by position to six fixed score labels.
 *
 * The scan is modelled the way the regular-expression engine performs it: a
 * position moves left to right; at a digit the greedy `\d+` takes the whole
 * run, an immediately following `%` is consumed, and scanning resumes after
 * the match; at any other character the position advances by one.
 */
module AtsScores {
  import opened Chars

  /** The half-open range [start, end) of one match of `\d+` in the response. */
  datatype Span = Span(start: nat, end: nat)

  /** `sp` covers a non-empty run of digits that cannot be extended either way. */
  ghost predicate MaximalRun(s: string, sp: Span) {
    && sp.start < sp.end <= |s|
    && (forall p :: sp.start <= p < sp.end ==> IsDigit(s[p]))
    && (sp.start == 0 || !IsDigit(s[sp.start - 1]))
    && (sp.end == |s| || !IsDigit(s[sp.end]))
  }

  ghost predicate MaximalRuns(s: string, r: seq<Span>) {
    forall k :: 0 <= k < |r| ==> MaximalRun(s, r[k])
  }

  /** Spans are pairwise disjoint and listed left to right. */
  ghost predicate Ordered(r: seq<Span>) {
    forall k, l :: 0 <= k < l < |r| ==> r[k].end < r[l].start
  }

  /** The scan never resumes in the middle of a digit run. */
  ghost predicate AtBoundary(s: string, i: nat) {
    i <= |s| && (i == 0 || i == |s| || !IsDigit(s[i - 1]) || !IsDigit(s[i]))
  }

  /** Where the greedy `\d+` that starts at `i` stops. */
  function DigitRunEnd(s: string, i: nat): (j: nat)
    requires i <= |s|
    ensures i <= j <= |s|
    ensures forall p :: i <= p < j ==> IsDigit(s[p])
    ensures j == |s| || !IsDigit(s[j])
    decreases |s| - i
  {
    if i < |s| && IsDigit(s[i]) then DigitRunEnd(s, i + 1) else i
  }

  /** Where scanning resumes after a digit run ending at `j`: past an optional `%`. */
  function ResumeAt(s: string, j: nat): (next: nat)
    requires j <= |s|
    ensures next == j || next == j + 1
    ensures next <= |s|
    ensures next == j + 1 <==> j < |s| && s[j] == '%'
  {
    if j < |s| && s[j] == '%' then j + 1 else j
  }

  /** The matches of `(\d+)%?` found by scanning `s` from position `i` on. */
  function ScanFrom(s: string, i: nat): (r: seq<Span>)
    requires i <= |s|
    ensures forall k :: 0 <= k < |r| ==> i <= r[k].start < r[k].end <= |s|
    decreases |s| - i
  {
    if i == |s| then []
    else if IsDigit(s[i]) then
      var j := DigitRunEnd(s, i);
      var next := ResumeAt(s, j);
      [Span(i, j)] + ScanFrom(s, next)
    else
      ScanFrom(s, i + 1)
  }

  /** Started where no digit run is cut, the scan finds only maximal digit runs. */
  lemma {:induction false} ScanFindsMaximalRuns(s: string, i: nat)
    requires AtBoundary(s, i)
    ensures MaximalRuns(s, ScanFrom(s, i))
    decreases |s| - i
  {
    if i == |s| {
    } else if IsDigit(s[i]) {
      var j := DigitRunEnd(s, i);
      var next := ResumeAt(s, j);
      ScanFindsMaximalRuns(s, next);
      assert MaximalRun(s, Span(i, j));
      assert ScanFrom(s, i) == [Span(i, j)] + ScanFrom(s, next);
    } else {
      ScanFindsMaximalRuns(s, i + 1);
      assert ScanFrom(s, i) == ScanFrom(s, i + 1);
    }
  }

  /** The matches do not overlap and come left to right, with a non-digit between neighbours. */
  lemma {:induction false} ScanIsOrdered(s: string, i: nat)
    requires i <= |s|
    ensures Ordered(ScanFrom(s, i))
    ensures forall k :: 0 <= k < |ScanFrom(s, i)| ==> IsDigit(s[ScanFrom(s, i)[k].start])
    decreases |s| - i
  {
    if i == |s| {
    } else if IsDigit(s[i]) {
      ScanIsOrdered(s, ResumeAt(s, DigitRunEnd(s, i)));
      OrderedAtRun(s, i);
    } else {
      ScanIsOrdered(s, i + 1);
      assert ScanFrom(s, i) == ScanFrom(s, i + 1);
    }
  }

  /** One step of the ordering proof: a run found at `i` ends before every later match starts. */
  lemma OrderedAtRun(s: string, i: nat)
    requires i < |s| && IsDigit(s[i])
    requires var rest := ScanFrom(s, ResumeAt(s, DigitRunEnd(s, i)));
      Ordered(rest) && forall k :: 0 <= k < |rest| ==> IsDigit(s[rest[k].start])
    ensures Ordered(ScanFrom(s, i))
    ensures forall k :: 0 <= k < |ScanFrom(s, i)| ==> IsDigit(s[ScanFrom(s, i)[k].start])
  {
    var j := DigitRunEnd(s, i);
    var rest := ScanFrom(s, ResumeAt(s, j));
    var r := ScanFrom(s, i);
    assert r == [Span(i, j)] + rest;
    forall l | 0 <= l < |rest|
      ensures j < rest[l].start
    {
      assert IsDigit(s[rest[l].start]);
    }
    forall k, l | 0 <= k < l < |r|
      ensures r[k].end < r[l].start
    {
      assert r[l] == rest[l - 1];
      if k > 0 {
        assert r[k] == rest[k - 1];
      }
    }
  }

  /** The text each span covers, in span order (the captured group of each match). */
  function Texts(s: string, spans: seq<Span>): seq<string>
    requires forall k :: 0 <= k < |spans| ==> spans[k].start <= spans[k].end <= |s|
  {
    seq(|spans|, k requires 0 <= k < |spans| => s[spans[k].start..spans[k].end])
  }

  lemma MaximalRunTexts(s: string, r: seq<Span>)
    requires forall k :: 0 <= k < |r| ==> r[k].start <= r[k].end <= |s|
    requires MaximalRuns(s, r)
    ensures forall k :: 0 <= k < |r| ==> Texts(s, r)[k] != [] && AllDigits(Texts(s, r)[k])
  {
    forall k | 0 <= k < |r|
      ensures Texts(s, r)[k] != [] && AllDigits(Texts(s, r)[k])
    {
      assert MaximalRun(s, r[k]);
    }
  }

  /** `re.findall(r"(\d+)%?", response)`: the score tokens, left to right. */
  function FindScores(response: string): (tokens: seq<string>)
    ensures forall k :: 0 <= k < |tokens| ==> tokens[k] != [] && AllDigits(tokens[k])
    ensures forall k :: 0 <= k < |tokens| ==> '%' !in tokens[k]
  {
    ScanFindsMaximalRuns(response, 0);
    MaximalRunTexts(response, ScanFrom(response, 0));
    Texts(response, ScanFrom(response, 0))
  }

  /** The six labels, in the order the page binds the tokens to them. */
  datatype Label =
    | Ats
    | Readability
    | GrammarSpelling
    | KeywordOptimization
    | ExperienceRelevance
    | Customization

  const LabelOrder: seq<Label> :=
    [Ats, Readability, GrammarSpelling, KeywordOptimization, ExperienceRelevance, Customization]

  /** The six scores as the page holds them: the matched digit strings. */
  datatype ScoreCard = ScoreCard(
    ats: string,
    readability: string,
    grammar: string,
    keyword: string,
    experience: string,
    customization: string)
  {
    function Get(which: Label): string {
      match which
      case Ats => ats
      case Readability => readability
      case GrammarSpelling => grammar
      case KeywordOptimization => keyword
      case ExperienceRelevance => experience
      case Customization => customization
    }
  }

  /** Either all six scores, or the error branch with the number of tokens actually found. */
  datatype ScoreOutcome = Scores(card: ScoreCard) | ParseFailure(found: nat)

  /** The exactly-six rule and the positional unpacking into the six labels. */
  function ParseScores(response: string): (r: ScoreOutcome)
    ensures r.Scores? <==> |FindScores(response)| == 6
    ensures r.Scores? ==>
      forall k :: 0 <= k < 6 ==> r.card.Get(LabelOrder[k]) == FindScores(response)[k]
    ensures r.ParseFailure? ==> r.found == |FindScores(response)|
  {
    var tokens := FindScores(response);
    if |tokens| == 6 then
      Scores(ScoreCard(tokens[0], tokens[1], tokens[2], tokens[3], tokens[4], tokens[5]))
    else
      ParseFailure(|tokens|)
  }

  /** Every score the page accepts is a non-empty string of decimal digits. */
  lemma AcceptedScoresAreDigitStrings(response: string, which: Label)
    requires ParseScores(response).Scores?
    ensures var v := ParseScores(response).card.Get(which); v != [] && AllDigits(v)
  {
    var tokens := FindScores(response);
    var k :| 0 <= k < 6 && LabelOrder[k] == which;
    assert ParseScores(response).card.Get(which) == tokens[k];
  }

  // ---------------------------------------------------------------------------
  // The tokens are exactly the digits of the response, cut at non-digits.
  // ---------------------------------------------------------------------------

  function Concat(parts: seq<string>): string {
    if parts == [] then [] else parts[0] + Concat(parts[1..])
  }

  /** The subsequence of digit characters of `s`. */
  function DigitsOf(s: string): string {
    if s == [] then []
    else (if IsDigit(s[0]) then [s[0]] else []) + DigitsOf(s[1..])
  }

  lemma {:induction false} DigitsOfAppend(a: string, b: string)
    ensures DigitsOf(a + b) == DigitsOf(a) + DigitsOf(b)
  {
    if a == [] {
      assert a + b == b;
    } else {
      var head := if IsDigit(a[0]) then [a[0]] else [];
      calc {
        DigitsOf(a + b);
        { assert (a + b)[0] == a[0]; assert (a + b)[1..] == a[1..] + b; }
        head + DigitsOf(a[1..] + b);
        { DigitsOfAppend(a[1..], b); }
        head + (DigitsOf(a[1..]) + DigitsOf(b));
        (head + DigitsOf(a[1..])) + DigitsOf(b);
      }
    }
  }

  lemma {:induction false} DigitsOfDigits(s: string)
    requires AllDigits(s)
    ensures DigitsOf(s) == s
  {
    if s != [] {
      DigitsOfDigits(s[1..]);
    }
  }

  lemma {:induction false} DigitsOfNonDigits(s: string)
    requires NoDigits(s)
    ensures DigitsOf(s) == []
  {
    if s != [] {
      DigitsOfNonDigits(s[1..]);
    }
  }

  /** The greedy run that starts at `i` ends at the first non-digit at or after `i`. */
  lemma RunEndAt(s: string, i: nat, j: nat)
    requires i <= j <= |s|
    requires forall p :: i <= p < j ==> IsDigit(s[p])
    requires j == |s| || !IsDigit(s[j])
    ensures DigitRunEnd(s, i) == j
  {
    var r := DigitRunEnd(s, i);
  }

  lemma TextsCons(s: string, sp: Span, rest: seq<Span>)
    requires sp.start <= sp.end <= |s|
    requires forall k :: 0 <= k < |rest| ==> rest[k].start <= rest[k].end <= |s|
    ensures Concat(Texts(s, [sp] + rest)) == s[sp.start..sp.end] + Concat(Texts(s, rest))
  {
    var ts := Texts(s, [sp] + rest);
    assert ts == [s[sp.start..sp.end]] + Texts(s, rest);
    assert ts[1..] == Texts(s, rest);
  }

  /** The digits from a run's start are the run followed by the digits after the match. */
  lemma DigitsAfterRun(s: string, i: nat, j: nat, next: nat)
    requires i <= j <= next <= |s|
    requires forall p :: i <= p < j ==> IsDigit(s[p])
    requires forall p :: j <= p < next ==> !IsDigit(s[p])
    ensures DigitsOf(s[i..]) == s[i..j] + DigitsOf(s[next..])
  {
    assert s[i..] == s[i..j] + (s[j..next] + s[next..]);
    DigitsOfAppend(s[i..j], s[j..next] + s[next..]);
    DigitsOfAppend(s[j..next], s[next..]);
    DigitsOfDigits(s[i..j]);
    DigitsOfNonDigits(s[j..next]);
  }

  lemma {:induction false} ScanCollectsDigits(s: string, i: nat)
    requires AtBoundary(s, i)
    ensures Concat(Texts(s, ScanFrom(s, i))) == DigitsOf(s[i..])
    decreases |s| - i
  {
    if i == |s| {
      assert Texts(s, []) == [];
    } else if IsDigit(s[i]) {
      ScanCollectsDigits(s, ResumeAt(s, DigitRunEnd(s, i)));
      CollectsDigitsAtRun(s, i);
    } else {
      ScanCollectsDigits(s, i + 1);
      DigitsAfterRun(s, i, i, i + 1);
    }
  }

  /** One step of the collection: a run found at `i` contributes exactly its own digits. */
  lemma CollectsDigitsAtRun(s: string, i: nat)
    requires i < |s| && IsDigit(s[i])
    requires var next := ResumeAt(s, DigitRunEnd(s, i));
      Concat(Texts(s, ScanFrom(s, next))) == DigitsOf(s[next..])
    ensures Concat(Texts(s, ScanFrom(s, i))) == DigitsOf(s[i..])
  {
    var j := DigitRunEnd(s, i);
    var next := ResumeAt(s, j);
    assert ScanFrom(s, i) == [Span(i, j)] + ScanFrom(s, next);
    TextsCons(s, Span(i, j), ScanFrom(s, next));
    DigitsAfterRun(s, i, j, next);
  }

  /** Concatenating the tokens gives back every digit of the response, in order. */
  lemma ScoresAreTheDigits(response: string)
    ensures Concat(FindScores(response)) == DigitsOf(response)
  {
    ScanCollectsDigits(response, 0);
    assert response[0..] == response;
  }

  /** No token is found exactly when the response holds no digit, so such a response is rejected. */
  lemma NoDigitsRejected(response: string)
    ensures FindScores(response) == [] <==> NoDigits(response)
    ensures NoDigits(response) ==> ParseScores(response) == ParseFailure(0)
  {
    ScoresAreTheDigits(response);
    if !NoDigits(response) {
      var p :| 0 <= p < |response| && IsDigit(response[p]);
      assert response == response[..p] + response[p..];
      DigitsOfAppend(response[..p], response[p..]);
      assert response[p..] == [response[p]] + response[p + 1..];
      DigitsOfAppend([response[p]], response[p + 1..]);
    } else {
      DigitsOfNonDigits(response);
      var tokens := FindScores(response);
      assert tokens == [];
    }
  }

  // ---------------------------------------------------------------------------
  // Scanning a concatenation whose first part ends outside a digit run.
  // ---------------------------------------------------------------------------

  ghost predicate EndsOutsideRun(a: string) {
    a == [] || !IsDigit(a[|a| - 1])
  }

  function Shift(spans: seq<Span>, d: nat): seq<Span> {
    seq(|spans|, k requires 0 <= k < |spans| => Span(spans[k].start + d, spans[k].end + d))
  }

  lemma ShiftCons(sp: Span, rest: seq<Span>, d: nat)
    ensures Shift([sp] + rest, d) == [Span(sp.start + d, sp.end + d)] + Shift(rest, d)
  {
  }

  lemma {:induction false} ScanPrefix(a: string, b: string, i: nat)
    requires i <= |a| && EndsOutsideRun(a)
    ensures ScanFrom(a + b, i) == ScanFrom(a, i) + ScanFrom(a + b, |a|)
    decreases |a| - i
  {
    var s := a + b;
    if i == |a| {
    } else if IsDigit(a[i]) {
      var j := DigitRunEnd(a, i);
      assert j < |a|;
      RunEndAt(s, i, j);
      var next := ResumeAt(a, j);
      ScanPrefix(a, b, next);
    } else {
      ScanPrefix(a, b, i + 1);
    }
  }

  lemma {:induction false} ScanSuffix(a: string, b: string, i: nat)
    requires i <= |b| && EndsOutsideRun(a)
    ensures ScanFrom(a + b, |a| + i) == Shift(ScanFrom(b, i), |a|)
    decreases |b| - i
  {
    if i == |b| {
      assert |a| + i == |a + b|;
    } else if IsDigit(b[i]) {
      ScanSuffix(a, b, ResumeAt(b, DigitRunEnd(b, i)));
      ScanSuffixAtDigit(a, b, i);
    } else {
      ScanSuffix(a, b, i + 1);
      ScanSuffixAtNonDigit(a, b, i);
    }
  }

  /** One step of the suffix scan: a non-digit of `b` is skipped in `a + b` as well. */
  lemma ScanSuffixAtNonDigit(a: string, b: string, i: nat)
    requires i < |b| && !IsDigit(b[i])
    requires ScanFrom(a + b, |a| + i + 1) == Shift(ScanFrom(b, i + 1), |a|)
    ensures ScanFrom(a + b, |a| + i) == Shift(ScanFrom(b, i), |a|)
  {
    assert (a + b)[|a| + i] == b[i];
  }

  /** One step of the suffix scan: a digit run of `b` is the same run, shifted, of `a + b`. */
  lemma ScanSuffixAtDigit(a: string, b: string, i: nat)
    requires i < |b| && IsDigit(b[i]) && EndsOutsideRun(a)
    requires var next := ResumeAt(b, DigitRunEnd(b, i));
      ScanFrom(a + b, |a| + next) == Shift(ScanFrom(b, next), |a|)
    ensures ScanFrom(a + b, |a| + i) == Shift(ScanFrom(b, i), |a|)
  {
    var j := DigitRunEnd(b, i);
    var rest := ScanFrom(b, ResumeAt(b, j));
    assert ScanFrom(b, i) == [Span(i, j)] + rest;
    ShiftedRunStep(a, b, i);
    ShiftCons(Span(i, j), rest, |a|);
  }

  /** The run of `b` at `i` is found at `|a| + i` in `a + b`, and scanning resumes at the shifted position. */
  lemma ShiftedRunStep(a: string, b: string, i: nat)
    requires i < |b| && IsDigit(b[i])
    ensures var j := DigitRunEnd(b, i);
      ScanFrom(a + b, |a| + i)
        == [Span(|a| + i, |a| + j)] + ScanFrom(a + b, |a| + ResumeAt(b, j))
  {
    var s := a + b;
    var j := DigitRunEnd(b, i);
    assert s[|a| + i] == b[i];
    RunEndAt(s, |a| + i, |a| + j);
    ResumeShift(a, b, j);
  }

  lemma ResumeShift(a: string, b: string, j: nat)
    requires j <= |b|
    ensures ResumeAt(a + b, |a| + j) == |a| + ResumeAt(b, j)
  {
    if j < |b| {
      assert (a + b)[|a| + j] == b[j];
    }
  }

  lemma TextsAppend(s: string, x: seq<Span>, y: seq<Span>)
    requires forall k :: 0 <= k < |x| ==> x[k].start <= x[k].end <= |s|
    requires forall k :: 0 <= k < |y| ==> y[k].start <= y[k].end <= |s|
    ensures Texts(s, x + y) == Texts(s, x) + Texts(s, y)
  {
  }

  lemma TextsOfPrefix(a: string, b: string, x: seq<Span>)
    requires forall k :: 0 <= k < |x| ==> x[k].start <= x[k].end <= |a|
    ensures Texts(a + b, x) == Texts(a, x)
  {
    forall k | 0 <= k < |x|
      ensures (a + b)[x[k].start..x[k].end] == a[x[k].start..x[k].end]
    {
    }
  }

  lemma TextsOfSuffix(a: string, b: string, y: seq<Span>)
    requires forall k :: 0 <= k < |y| ==> y[k].start <= y[k].end <= |b|
    ensures Texts(a + b, Shift(y, |a|)) == Texts(b, y)
  {
    forall k | 0 <= k < |y|
      ensures (a + b)[|a| + y[k].start..|a| + y[k].end] == b[y[k].start..y[k].end]
    {
    }
  }

  /** When `a` does not end inside a digit run, the tokens of `a + b` are those of `a` then those of `b`. */
  lemma ScoresOfAppend(a: string, b: string)
    requires EndsOutsideRun(a)
    ensures FindScores(a + b) == FindScores(a) + FindScores(b)
  {
    ScanPrefix(a, b, 0);
    ScanSuffix(a, b, 0);
    var sa, sb := ScanFrom(a, 0), ScanFrom(b, 0);
    TextsAppend(a + b, sa, Shift(sb, |a|));
    TextsOfPrefix(a, b, sa);
    TextsOfSuffix(a, b, sb);
  }

  lemma {:induction false} ScanOfNoDigits(s: string, i: nat)
    requires i <= |s|
    requires forall q :: i <= q < |s| ==> !IsDigit(s[q])
    ensures ScanFrom(s, i) == []
    decreases |s| - i
  {
    if i < |s| {
      ScanOfNoDigits(s, i + 1);
    }
  }

  /** A digit string followed by digit-free text that starts right after it yields that one token. */
  lemma ScoreOfValueLine(v: string, tail: string)
    requires v != [] && AllDigits(v) && tail != [] && NoDigits(tail)
    ensures FindScores(v + tail) == [v]
  {
    var s := v + tail;
    RunEndAt(s, 0, |v|);
    var next := ResumeAt(s, |v|);
    var rest := ScanFrom(s, next);
    forall q | next <= q < |s|
      ensures !IsDigit(s[q])
    {
      assert s[q] == tail[q - |v|];
    }
    ScanOfNoDigits(s, next);
    assert ScanFrom(s, 0) == [Span(0, |v|)];
    assert s[0..|v|] == v;
  }

  // ---------------------------------------------------------------------------
  // The answer format the prompt asks for, and what the reader makes of it.
  // ---------------------------------------------------------------------------

  /** The label texts of the prompt's "Output Format", in order. */
  const AtsLabel := "ATS SCORE: "
  const ReadabilityLabel := "Readability Score: "
  const GrammarLabel := "Grammar & Spelling Score: "
  const KeywordLabel := "Keyword Optimization Score: "
  const ExperienceLabel := "Experience Relevance Score: "
  const CustomizationLabel := "Customization Score: "

  const OutputLabels: seq<string> :=
    [AtsLabel, ReadabilityLabel, GrammarLabel, KeywordLabel, ExperienceLabel, CustomizationLabel]

  /** No label of the format contains a digit, so only the values are read as scores. */
  lemma OutputLabelsHaveNoDigits()
    ensures |OutputLabels| == 6
    ensures forall k :: 0 <= k < |OutputLabels| ==> NoDigits(OutputLabels[k])
  {
    LeadingLabelsHaveNoDigits();
    MiddleLabelsHaveNoDigits();
    TrailingLabelsHaveNoDigits();
  }

  lemma LeadingLabelsHaveNoDigits()
    ensures NoDigits(AtsLabel) && NoDigits(ReadabilityLabel)
  {
    assert NoDigits(AtsLabel);
  }

  lemma MiddleLabelsHaveNoDigits()
    ensures NoDigits(GrammarLabel) && NoDigits(KeywordLabel)
  {
    assert NoDigits(GrammarLabel);
  }

  lemma TrailingLabelsHaveNoDigits()
    ensures NoDigits(ExperienceLabel) && NoDigits(CustomizationLabel)
  {
    assert NoDigits(ExperienceLabel);
  }

  /** One line `<label><value>%` per score, each ended by two spaces and a newline. */
  function FormatResponse(labels: seq<string>, values: seq<string>): (text: string)
    requires |labels| == |values|
    ensures labels != [] ==> text != [] && text[|text| - 1] == '\n'
  {
    if labels == [] then ""
    else
      var line := labels[0] + values[0] + "%  \n";
      line + FormatResponse(labels[1..], values[1..])
  }

  /** A response in the requested format yields exactly the values written into it, in order. */
  lemma {:induction false} ScoresOfFormattedResponse(labels: seq<string>, values: seq<string>)
    requires |labels| == |values|
    requires forall k :: 0 <= k < |labels| ==> NoDigits(labels[k])
    requires forall k :: 0 <= k < |values| ==> values[k] != [] && AllDigits(values[k])
    ensures FindScores(FormatResponse(labels, values)) == values
  {
    if labels == [] {
      NoDigitsRejected("");
    } else {
      var l, v := labels[0], values[0];
      var line := l + v + "%  \n";
      var rest := FormatResponse(labels[1..], values[1..]);
      assert line[|line| - 1] == '\n';
      ScoresOfAppend(line, rest);
      assert line == l + (v + "%  \n");
      ScoresOfAppend(l, v + "%  \n");
      NoDigitsRejected(l);
      ScoreOfValueLine(v, "%  \n");
      ScoresOfFormattedResponse(labels[1..], values[1..]);
    }
  }

  /** Round trip: six digit strings written in the prompt's format are read back under their labels. */
  lemma ParseFormattedResponse(card: ScoreCard)
    requires forall l: Label :: card.Get(l) != [] && AllDigits(card.Get(l))
    ensures ParseScores(FormatResponse(OutputLabels, [card.ats, card.readability, card.grammar,
      card.keyword, card.experience, card.customization])) == Scores(card)
  {
    var values := [card.ats, card.readability, card.grammar, card.keyword, card.experience, card.customization];
    assert forall k :: 0 <= k < 6 ==> values[k] == card.Get(LabelOrder[k]);
    OutputLabelsHaveNoDigits();
    ScoresOfFormattedResponse(OutputLabels, values);
  }

  /** Any extra number after the six is not truncated away: the whole answer is rejected. */
  lemma ExtraNumberRejected(values: seq<string>, extra: string)
    requires |values| == 6
    requires forall k :: 0 <= k < 6 ==> values[k] != [] && AllDigits(values[k])
    requires !NoDigits(extra)
    ensures ParseScores(FormatResponse(OutputLabels, values) + extra)
      == ParseFailure(6 + |FindScores(extra)|)
    ensures |FindScores(extra)| >= 1
  {
    OutputLabelsHaveNoDigits();
    ScoresWithTrailingText(OutputLabels, values, extra);
    NoDigitsRejected(extra);
  }

  /** Text after a formatted response contributes its own numbers after the formatted values. */
  lemma ScoresWithTrailingText(labels: seq<string>, values: seq<string>, extra: string)
    requires |labels| == |values|
    requires forall k :: 0 <= k < |labels| ==> NoDigits(labels[k])
    requires forall k :: 0 <= k < |values| ==> values[k] != [] && AllDigits(values[k])
    ensures FindScores(FormatResponse(labels, values) + extra) == values + FindScores(extra)
  {
    ScoresOfFormattedResponse(labels, values);
    ScoresOfAppend(FormatResponse(labels, values), extra);
  }

  /** A response with fewer than six numbers is rejected rather than zero-filled. */
  lemma MissingNumberRejected(values: seq<string>)
    requires |values| == 5
    requires forall k :: 0 <= k < 5 ==> values[k] != [] && AllDigits(values[k])
    ensures ParseScores(FormatResponse(OutputLabels[..5], values)) == ParseFailure(5)
  {
    OutputLabelsHaveNoDigits();
    ScoresOfFormattedResponse(OutputLabels[..5], values);
  }
}
