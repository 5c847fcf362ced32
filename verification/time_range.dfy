/** `extract_time_range` of utils/timestamp_utils.py: the time phrase a query
    names, found by trying the phrase patterns in a fixed order. */
module TimeRanges {
  import opened Common
  import opened Text
  import opened Timestamp
  import opened Patterns

  /** The pair `(start_time, end_time)`; `None` where the code returns `None`. */
  datatype TimeRange = TimeRange(start: Option<real>, end: Option<real>)

  /** `(None, None)`: the query names no time. */
  const NoRange := TimeRange(None, None)

  /** The order in which `extract_time_range` tries the patterns: the three range
      patterns of its list, then the mark pattern, then the first/last pattern. */
  const Rules: seq<Rule> := [FromTo, BetweenAnd, Dash, Mark, FirstLast]

  /** The index in `Rules` of the first pattern at or after k that occurs in q. */
  function FirstMatch(q: string, k: nat): (r: Option<nat>)
    requires k <= |Rules|
    ensures r.Some? ==> k <= r.value < |Rules| && Search(Rules[r.value], q).Some?
    ensures r.Some? ==> forall j :: k <= j < r.value ==> Search(Rules[j], q).None?
    ensures r.None? ==> forall j :: k <= j < |Rules| ==> Search(Rules[j], q).None?
    decreases |Rules| - k
  {
    if k == |Rules| then None
    else if Search(Rules[k], q).Some? then Some(k)
    else FirstMatch(q, k + 1)
  }

  /** How many groups a pattern has, and that the first/last pattern's count is digits. */
  predicate GroupsFit(rule: Rule, g: seq<string>) {
    match rule
    case Mark => |g| == 1
    case FirstLast => |g| == 2 && AllDigits(g[1])
    case _ => |g| == 2
  }

  /** The groups of the leftmost match of a pattern fit it. */
  lemma MatchFits(rule: Rule, q: string)
    requires Search(rule, q).Some?
    ensures GroupsFit(rule, Search(rule, q).value.groups)
  {
    SearchFromLeftmost(rule, q, 0);
    MatchGroups(rule, q, Search(rule, q).value.at);
  }

  /** The range each pattern's match stands for. A range pattern gives both parsed
      times; the mark pattern a window of 30 seconds on either side of its time;
      `first N minutes` the span from 0 to N*60 and `last N minutes` the pair
      `(-N*60, None)`. A ValueError from `parse_timestamp` escapes. */
  function RangeOfMatch(rule: Rule, g: seq<string>): Result<TimeRange>
    requires GroupsFit(rule, g)
  {
    match rule
    case Mark =>
      var p :- ParseTimestamp(g[0]);
      Ok(TimeRange(Some(p - 30.0), Some(p + 30.0)))
    case FirstLast =>
      var d := (DigitsValue(g[1]) * 60) as real;
      if Lower(g[0]) == "first" then Ok(TimeRange(Some(0.0), Some(d)))
      else Ok(TimeRange(Some(-d), None))
    case _ => BothTimes(g[0], g[1])
  }

  /** `(parse_timestamp(a), parse_timestamp(b))`, evaluated left to right. */
  function BothTimes(a: string, b: string): Result<TimeRange> {
    var s :- ParseTimestamp(a);
    var e :- ParseTimestamp(b);
    Ok(TimeRange(Some(s), Some(e)))
  }

  /** The result of `extract_time_range(q)`: the range of the first pattern in
      `Rules` that occurs in q, at its leftmost match, or `NoRange`. */
  function TimeRangeOf(q: string): Result<TimeRange> {
    match FirstMatch(q, 0)
    case None => Ok(NoRange)
    case Some(k) =>
      MatchFits(Rules[k], q);
      RangeOfMatch(Rules[k], Search(Rules[k], q).value.groups)
  }

  /** The first pattern that occurs decides the result. */
  lemma {:induction false} FirstMatchIs(q: string, k: nat, i: nat)
    requires i <= k < |Rules| && Search(Rules[k], q).Some?
    requires forall j :: i <= j < k ==> Search(Rules[j], q).None?
    ensures FirstMatch(q, i) == Some(k)
    decreases k - i
  {
    if i < k {
      FirstMatchIs(q, k, i + 1);
    }
  }

  /** When the pattern at index k of `Rules` is the first that occurs, the result
      is the range of its leftmost match. */
  lemma RuleDecides(q: string, k: nat)
    requires k < |Rules| && Search(Rules[k], q).Some?
    requires forall j :: 0 <= j < k ==> Search(Rules[j], q).None?
    ensures GroupsFit(Rules[k], Search(Rules[k], q).value.groups)
    ensures TimeRangeOf(q) == RangeOfMatch(Rules[k], Search(Rules[k], q).value.groups)
  {
    FirstMatchIs(q, k, 0);
    MatchFits(Rules[k], q);
  }

  /** When no pattern occurs, the result is `(None, None)`. */
  lemma NoRuleDecides(q: string)
    requires forall j :: 0 <= j < 3 ==> Search(Rules[j], q).None?
    requires Search(Mark, q).None? && Search(FirstLast, q).None?
    ensures TimeRangeOf(q) == Ok(NoRange)
  {
    assert Rules[3] == Mark && Rules[4] == FirstLast;
  }

  /** `extract_time_range`: the loop over the range patterns with its early
      return, then the mark pattern, then the first/last pattern. */
  method ExtractTimeRange(q: string) returns (r: Result<TimeRange>)
    ensures r == TimeRangeOf(q)
  {
    var rangePatterns := [FromTo, BetweenAnd, Dash];
    for k := 0 to |rangePatterns|
      invariant forall j :: 0 <= j < k ==> Search(Rules[j], q).None?
    {
      assert rangePatterns[k] == Rules[k];
      var m := Search(rangePatterns[k], q);
      if m.Some? {
        var g := m.value.groups;
        RangeRule(q, k);
        BothTimesParse(g[0], g[1]);
        var startTime :- ParseTimestamp(g[0]);
        var endTime :- ParseTimestamp(g[1]);
        return Ok(TimeRange(Some(startTime), Some(endTime)));
      }
    }
    assert Rules[0] == FromTo && Rules[1] == BetweenAnd && Rules[2] == Dash;
    assert Search(Rules[0], q).None? && Search(Rules[1], q).None? && Search(Rules[2], q).None?;
    var m := Search(Mark, q);
    if m.Some? {
      var g := m.value.groups;
      MarkRule(q);
      MarkRange(g);
      var timePoint :- ParseTimestamp(g[0]);
      MarkWindowAround(g, timePoint);
      return Ok(TimeRange(Some(timePoint - 30.0), Some(timePoint + 30.0)));
    }
    m := Search(FirstLast, q);
    if m.Some? {
      var g := m.value.groups;
      FirstLastRule(q);
      FirstLastRange(g);
      var durationSeconds := (DigitsValue(g[1]) * 60) as real;
      if Lower(g[0]) == "first" {
        return Ok(TimeRange(Some(0.0), Some(durationSeconds)));
      } else {
        return Ok(TimeRange(Some(-durationSeconds), None));
      }
    }
    NoRuleDecides(q);
    return Ok(NoRange);
  }

  // ---------------------------------------------------------------------------
  // What each pattern gives, in priority order

  /** `from A to B`, `between A and B` and `A - B`: when the pattern at index
      k < 3 is the first that occurs, the result is the pair of its two parsed
      times, and a ValueError from either parse escapes. */
  lemma RangeRule(q: string, k: nat)
    requires k < 3 && Search(Rules[k], q).Some?
    requires forall j :: 0 <= j < k ==> Search(Rules[j], q).None?
    ensures |Search(Rules[k], q).value.groups| == 2
    ensures TimeRangeOf(q) == BothTimes(Search(Rules[k], q).value.groups[0], Search(Rules[k], q).value.groups[1])
  {
    RuleDecides(q, k);
  }

  /** Both times, or the first ValueError. */
  lemma BothTimesParse(a: string, b: string)
    ensures BothTimes(a, b).Ok? <==> ParseTimestamp(a).Ok? && ParseTimestamp(b).Ok?
    ensures BothTimes(a, b).Ok? ==>
      BothTimes(a, b).value == TimeRange(Some(ParseTimestamp(a).value), Some(ParseTimestamp(b).value))
  {
  }

  /** `at [the] T [minute] mark`: when no range pattern occurs, the mark pattern
      decides, through its one group. */
  lemma MarkRule(q: string)
    requires Search(FromTo, q).None? && Search(BetweenAnd, q).None? && Search(Dash, q).None?
    requires Search(Mark, q).Some?
    ensures |Search(Mark, q).value.groups| == 1
    ensures TimeRangeOf(q) == RangeOfMatch(Mark, Search(Mark, q).value.groups)
  {
    assert Rules[0] == FromTo && Rules[1] == BetweenAnd && Rules[2] == Dash && Rules[3] == Mark && Rules[4] == FirstLast;
    RuleDecides(q, 3);
  }

  /** The mark rule's window around a time its group parses to. */
  lemma MarkWindowAround(g: seq<string>, p: real)
    requires |g| == 1 && ParseTimestamp(g[0]) == Ok(p)
    ensures RangeOfMatch(Mark, g) == Ok(TimeRange(Some(p - 30.0), Some(p + 30.0)))
  {
  }

  /** The mark pattern's range is the window from 30 seconds before to 30 seconds
      after `parse_timestamp(T)`, not clamped at 0; a ValueError from the parse escapes. */
  lemma MarkRange(g: seq<string>)
    requires |g| == 1
    ensures RangeOfMatch(Mark, g).Ok? <==> ParseTimestamp(g[0]).Ok?
    ensures RangeOfMatch(Mark, g).Ok? ==> RangeOfMatch(Mark, g).value.start == Some(ParseTimestamp(g[0]).value - 30.0)
    ensures RangeOfMatch(Mark, g).Ok? ==> RangeOfMatch(Mark, g).value.end == Some(ParseTimestamp(g[0]).value + 30.0)
  {
  }

  /** `first N minutes` and `last N minutes`: when no other pattern occurs, the
      first/last pattern decides; its groups are the keyword, "first" or "last" in
      any case, and the digits of N. */
  lemma FirstLastRule(q: string)
    requires Search(FromTo, q).None? && Search(BetweenAnd, q).None? && Search(Dash, q).None?
    requires Search(Mark, q).None?
    requires Search(FirstLast, q).Some?
    ensures var g := Search(FirstLast, q).value.groups;
      |g| == 2 && IsDigits(g[1]) && (Lower(g[0]) == "first" || Lower(g[0]) == "last")
    ensures TimeRangeOf(q) == RangeOfMatch(FirstLast, Search(FirstLast, q).value.groups)
  {
    assert Rules[0] == FromTo && Rules[1] == BetweenAnd && Rules[2] == Dash && Rules[3] == Mark && Rules[4] == FirstLast;
    RuleDecides(q, 4);
    SearchFromLeftmost(FirstLast, q, 0);
    MatchGroups(FirstLast, q, Search(FirstLast, q).value.at);
  }

  /** `(0, N*60)` for "first" and `(-N*60, None)` for "last". */
  lemma FirstLastRange(g: seq<string>)
    requires |g| == 2 && IsDigits(g[1]) && (Lower(g[0]) == "first" || Lower(g[0]) == "last")
    ensures var d := (DigitsValue(g[1]) * 60) as real;
      if Lower(g[0]) == "first" then RangeOfMatch(FirstLast, g) == Ok(TimeRange(Some(0.0), Some(d)))
      else Lower(g[0]) == "last" && RangeOfMatch(FirstLast, g) == Ok(TimeRange(Some(-d), None))
  {
  }

  // ---------------------------------------------------------------------------
  // Properties of the result

  /** Every pattern's range has a start. */
  lemma RangeHasStart(rule: Rule, g: seq<string>)
    requires GroupsFit(rule, g) && RangeOfMatch(rule, g).Ok?
    ensures RangeOfMatch(rule, g).value.start.Some?
  {
  }

  /** The result is `(None, None)` exactly when none of the patterns occurs. */
  lemma NoRangeIffNoPattern(q: string)
    ensures TimeRangeOf(q) == Ok(NoRange) <==> forall rule :: Search(rule, q).None?
  {
    match FirstMatch(q, 0)
    case None =>
      forall rule ensures Search(rule, q).None? {
        assert rule == Rules[RuleIndex(rule)];
      }
    case Some(k) =>
      MatchFits(Rules[k], q);
      if RangeOfMatch(Rules[k], Search(Rules[k], q).value.groups).Ok? {
        RangeHasStart(Rules[k], Search(Rules[k], q).value.groups);
      }
  }

  /** The index of a pattern in `Rules`. */
  function RuleIndex(rule: Rule): (k: nat)
    ensures k < |Rules| && Rules[k] == rule
  {
    match rule
    case FromTo => 0
    case BetweenAnd => 1
    case Dash => 2
    case Mark => 3
    case FirstLast => 4
  }

  /** A missing end comes only from `last N minutes`, and its start is then at
      most 0; a missing start comes only with a missing end. */
  lemma MissingBounds(q: string)
    requires TimeRangeOf(q).Ok?
    ensures var r := TimeRangeOf(q).value;
      (r.start.None? ==> r.end.None?)
      && (r.start.Some? && r.end.None? ==>
            FirstMatch(q, 0) == Some(4) && r.start.value <= 0.0 && Search(FirstLast, q).Some?
            && var g := Search(FirstLast, q).value.groups; |g| == 2 && Lower(g[0]) == "last")
  {
    if FirstMatch(q, 0) == Some(4) {
      assert Rules[0] == FromTo && Rules[1] == BetweenAnd && Rules[2] == Dash && Rules[3] == Mark && Rules[4] == FirstLast;
      FirstLastRule(q);
      FirstLastRange(Search(FirstLast, q).value.groups);
    }
  }

  /** The mark window is 60 seconds wide. */
  lemma MarkWindowWidth(q: string)
    requires FirstMatch(q, 0) == Some(3) && TimeRangeOf(q).Ok?
    ensures TimeRangeOf(q).value.end.value - TimeRangeOf(q).value.start.value == 60.0
  {
    assert Rules[0] == FromTo && Rules[1] == BetweenAnd && Rules[2] == Dash && Rules[3] == Mark && Rules[4] == FirstLast;
    MarkRule(q);
    MarkRange(Search(Mark, q).value.groups);
  }

  /** A query without a colon never raises: each time it parses is a bare number
      or text, which `parse_timestamp` reads without error. */
  lemma ColonFreeQueryParses(q: string)
    requires ':' !in q
    ensures TimeRangeOf(q).Ok?
  {
    if FirstMatch(q, 0).Some? {
      var k := FirstMatch(q, 0).value;
      SearchFromLeftmost(Rules[k], q, 0);
      var f := Search(Rules[k], q).value;
      GroupsFromQuery(Rules[k], q, f.at);
      MatchGroups(Rules[k], q, f.at);
      forall t | t in f.groups ensures Count(t, ':') == 0 {
        CountZero(t, ':');
      }
    }
  }

  // ---------------------------------------------------------------------------
  // IGNORECASE

  /** A time token has no letters, so lower-casing leaves it as it is. */
  lemma LowerKeepsDigitsAndColons(t: string)
    requires forall k :: 0 <= k < |t| ==> IsDigit(t[k]) || t[k] == ':'
    ensures Lower(t) == t
  {
  }

  lemma {:induction false} FirstMatchIgnoresCase(q: string, k: nat)
    requires k <= |Rules|
    ensures FirstMatch(Lower(q), k) == FirstMatch(q, k)
    decreases |Rules| - k
  {
    if k < |Rules| {
      SearchFromIgnoresCase(Rules[k], q, 0);
      FirstMatchIgnoresCase(q, k + 1);
    }
  }

  /** The range of a match does not depend on the case of its groups. */
  lemma RangeIgnoresCase(rule: Rule, g: seq<string>)
    requires GroupShape(rule, g)
    ensures GroupsFit(rule, g) && GroupsFit(rule, LowerGroups(Some(g)).value)
    ensures RangeOfMatch(rule, LowerGroups(Some(g)).value) == RangeOfMatch(rule, g)
  {
    var g' := LowerGroups(Some(g)).value;
    if rule == FirstLast {
      LowerKeepsDigitsAndColons(g[1]);
      LowerIdempotent(g[0]);
    } else {
      forall k | 0 <= k < |g| ensures g'[k] == g[k] {
        LowerKeepsDigitsAndColons(g[k]);
      }
      assert g' == g;
    }
  }

  /** IGNORECASE: the case of the query's letters does not change the result. */
  lemma TimeRangeIgnoresCase(q: string)
    ensures TimeRangeOf(Lower(q)) == TimeRangeOf(q)
  {
    FirstMatchIgnoresCase(q, 0);
    if FirstMatch(q, 0).Some? {
      var k := FirstMatch(q, 0).value;
      SearchFromIgnoresCase(Rules[k], q, 0);
      SearchFromLeftmost(Rules[k], q, 0);
      MatchGroups(Rules[k], q, Search(Rules[k], q).value.at);
      RangeIgnoresCase(Rules[k], Search(Rules[k], q).value.groups);
    }
  }
}
