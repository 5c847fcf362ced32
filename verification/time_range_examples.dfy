/** `extract_time_range` on particular queries. */
module TimeRangeExamples {
  import opened Common
  import opened Text
  import opened Timestamp
  import opened Patterns
  import opened TimeRanges
  import opened TimestampExamples

  /** A word with no upper-case letter is its own lower-case form. */
  lemma LowerOfLowercase(w: string)
    requires forall k :: 0 <= k < |w| ==> !IsUpper(w[k])
    ensures Lower(w) == w
  {
  }

  // ---------------------------------------------------------------------------
  // "at the 2 minute mark": the bare 2 is read as seconds

  const MarkQuery := "at the 2 minute mark"

  lemma MarkQueryWords()
    ensures Keyword(MarkQuery, 0, "at") == Some(2) && Keyword(MarkQuery, 3, "the") == Some(6)
    ensures Keyword(MarkQuery, 9, "minute") == Some(15) && Keyword(MarkQuery, 16, "mark") == Some(20)
  {
  }

  lemma MarkQueryGaps()
    ensures Spaces1(MarkQuery, 2) == Some(3) && Spaces1(MarkQuery, 6) == Some(7)
    ensures Spaces1(MarkQuery, 8) == Some(9) && Spaces1(MarkQuery, 15) == Some(16)
    ensures Token(MarkQuery, 7) == Some(8) && MarkQuery[7..8] == "2"
  {
  }

  lemma MarkQueryMatch()
    ensures MatchAt(Mark, MarkQuery, 0) == Some(["2"])
  {
    var q := MarkQuery;
    MarkQueryWords();
    MarkQueryGaps();
    assert OptionalThe(q, 3) == 7;
    assert OptionalMinute(q, 8) == 15;
  }

  lemma MarkQueryLetters()
    ensures forall k :: 0 <= k < |MarkQuery| ==> LowerChar(MarkQuery[k]) !in "ob-"
  {
  }

  lemma MarkQuerySearch()
    ensures Search(FromTo, MarkQuery).None? && Search(BetweenAnd, MarkQuery).None? && Search(Dash, MarkQuery).None?
    ensures Search(Mark, MarkQuery) == Some(Found(0, ["2"]))
  {
    MarkQueryLetters();
    NoMatchWithoutNeeded(FromTo, MarkQuery);
    NoMatchWithoutNeeded(BetweenAnd, MarkQuery);
    NoMatchWithoutNeeded(Dash, MarkQuery);
    MarkQueryMatch();
  }

  lemma TwoSeconds()
    ensures ParseTimestamp("2") == Ok(2.0)
  {
    ParseFloatDigits("2");
  }

  lemma MarkExample()
    ensures TimeRangeOf(MarkQuery) == Ok(TimeRange(Some(-28.0), Some(32.0)))
  {
    MarkQuerySearch();
    MarkRule(MarkQuery);
    MarkRange(["2"]);
    TwoSeconds();
  }

  // ---------------------------------------------------------------------------
  // "from 5:30 to 10:45"

  const FromToQuery := "from 5:30 to 10:45"

  lemma FromToQueryMatch()
    ensures MatchAt(FromTo, FromToQuery, 0) == Some(["5:30", "10:45"])
  {
    var q := FromToQuery;
    assert Keyword(q, 0, "from") == Some(4);
    assert Spaces1(q, 4) == Some(5);
    assert Token(q, 5) == Some(9);
    assert Spaces1(q, 9) == Some(10);
    assert Keyword(q, 10, "to") == Some(12);
    assert Spaces1(q, 12) == Some(13);
    assert Token(q, 13) == Some(18);
    assert q[5..9] == "5:30" && q[13..18] == "10:45";
  }

  lemma TenFortyFive()
    ensures ParseTimestamp("10:45") == Ok(645.0)
  {
    var s := "10:45";
    assert s == "10" + ":" + "45";
    TenAndFortyFive();
    DigitsNoColon("10");
    DigitsNoColon("45");
    SplitTwoFields("10", "45");
    ParseFloatDigits("45");
    ParseMinutesShaped(s, Split(s, ':'), 45.0, 645.0);
  }

  lemma TenAndFortyFive()
    ensures DigitsValue("10") == 10 && DigitsValue("45") == 45
  {
    assert "10"[..1] == "1" && "45"[..1] == "4";
  }

  lemma FromToExample()
    ensures TimeRangeOf(FromToQuery) == Ok(TimeRange(Some(330.0), Some(645.0)))
  {
    FromToQueryMatch();
    assert Search(FromTo, FromToQuery) == Some(Found(0, ["5:30", "10:45"]));
    assert Rules[0] == FromTo;
    RangeRule(FromToQuery, 0);
    ParseMinutesSecondsExample();
    TenFortyFive();
    BothTimesParse("5:30", "10:45");
  }

  // ---------------------------------------------------------------------------
  // "from 1 to 2 at the 3 minute mark": the range pattern is tried first

  const BothQuery := "from 1 to 2 at the 3 minute mark"

  lemma BothQueryWords()
    ensures Keyword(BothQuery, 0, "from") == Some(4) && Keyword(BothQuery, 7, "to") == Some(9)
  {
    var q := BothQuery;
    assert q[7] == 't' && q[8] == 'o';
    assert q[0..4] == "from" && q[7..9] == "to";
    LowerOfLowercase("from");
    LowerOfLowercase("to");
  }

  lemma BothQueryTimes()
    ensures Token(BothQuery, 5) == Some(6) && Token(BothQuery, 10) == Some(11)
    ensures BothQuery[5..6] == "1" && BothQuery[10..11] == "2"
  {
    var q := BothQuery;
    assert q[5] == '1' && q[6] == ' ' && q[10] == '2' && q[11] == ' ';
    assert TokenEnd(q, 6, 0) == 6 && TokenEnd(q, 11, 0) == 11;
  }

  lemma BothQueryGaps()
    ensures Spaces1(BothQuery, 4) == Some(5) && Spaces1(BothQuery, 6) == Some(7) && Spaces1(BothQuery, 9) == Some(10)
  {
    assert SpacesEnd(BothQuery, 5) == 5 && SpacesEnd(BothQuery, 7) == 7 && SpacesEnd(BothQuery, 10) == 10;
  }

  lemma OneSecond()
    ensures ParseTimestamp("1") == Ok(1.0)
  {
    ParseFloatDigits("1");
  }

  lemma BothQueryMarkWords()
    ensures Keyword(BothQuery, 12, "at") == Some(14) && Keyword(BothQuery, 15, "the") == Some(18)
    ensures Keyword(BothQuery, 21, "minute") == Some(27) && Keyword(BothQuery, 28, "mark") == Some(32)
  {
    var q := BothQuery;
    assert q[12..14] == "at" && q[15..18] == "the" && q[21..27] == "minute" && q[28..32] == "mark";
    LowerOfLowercase("at");
    LowerOfLowercase("the");
    LowerOfLowercase("minute");
    LowerOfLowercase("mark");
  }

  lemma BothQueryMarkGaps()
    ensures Spaces1(BothQuery, 14) == Some(15) && Spaces1(BothQuery, 18) == Some(19)
    ensures Spaces1(BothQuery, 20) == Some(21) && Spaces1(BothQuery, 27) == Some(28)
    ensures Token(BothQuery, 19) == Some(20) && BothQuery[19..20] == "3"
  {
    var q := BothQuery;
    assert q[19] == '3' && q[20] == ' ';
    assert TokenEnd(q, 20, 0) == 20;
  }

  /** The later mark pattern also matches the query, at "at the 3 minute mark". */
  lemma BothQueryMark()
    ensures MatchAt(Mark, BothQuery, 12) == Some(["3"])
  {
    var q := BothQuery;
    BothQueryMarkWords();
    BothQueryMarkGaps();
    assert OptionalThe(q, 15) == 19;
    assert OptionalMinute(q, 20) == 27;
  }

  /** A query that both a range pattern and the mark pattern match: the range,
      earlier in the list, decides. */
  lemma PriorityExample()
    ensures Search(Mark, BothQuery).Some?
    ensures TimeRangeOf(BothQuery) == Ok(TimeRange(Some(1.0), Some(2.0)))
  {
    BothQueryMark();
    SearchFromLeftmost(Mark, BothQuery, 0);
    BothQueryWords();
    BothQueryTimes();
    BothQueryGaps();
    assert MatchAt(FromTo, BothQuery, 0) == Some(["1", "2"]);
    assert Search(FromTo, BothQuery) == Some(Found(0, ["1", "2"]));
    assert Rules[0] == FromTo;
    RangeRule(BothQuery, 0);
    OneSecond();
    TwoSeconds();
    BothTimesParse("1", "2");
  }

  // ---------------------------------------------------------------------------
  // "from 5: to 7": the token "5:" reaches int("") and the ValueError escapes

  const TrailingColonQuery := "from 5: to 7"

  lemma TrailingColonExample()
    ensures TimeRangeOf(TrailingColonQuery) == Err(ValueError)
  {
    var q := TrailingColonQuery;
    assert Keyword(q, 0, "from") == Some(4);
    assert Spaces1(q, 4) == Some(5);
    assert Token(q, 5) == Some(7);
    assert Spaces1(q, 7) == Some(8);
    assert Keyword(q, 8, "to") == Some(10);
    assert Spaces1(q, 10) == Some(11);
    assert Token(q, 11) == Some(12);
    assert q[5..7] == "5:" && q[11..12] == "7";
    assert MatchAt(FromTo, q, 0) == Some(["5:", "7"]);
    assert Search(FromTo, q) == Some(Found(0, ["5:", "7"]));
    assert Rules[0] == FromTo;
    RangeRule(q, 0);
    ParseTrailingColonExample();
  }

  // ---------------------------------------------------------------------------
  // "first 5 minutes" and "LAST 10 MINUTES"

  const FirstQuery := "first 5 minutes"

  /** Neither query has an 'o', 'b', '-' or 'k', so only the last pattern can match. */
  lemma FirstLastLetters(q: string)
    requires q == FirstQuery || q == LastQuery
    ensures Search(FromTo, q).None? && Search(BetweenAnd, q).None?
    ensures Search(Dash, q).None? && Search(Mark, q).None?
  {
    assert forall k :: 0 <= k < |q| ==> LowerChar(q[k]) !in "ob-k";
    NoMatchWithoutNeeded(FromTo, q);
    NoMatchWithoutNeeded(BetweenAnd, q);
    NoMatchWithoutNeeded(Dash, q);
    NoMatchWithoutNeeded(Mark, q);
  }

  lemma FirstQueryScan()
    ensures Keyword(FirstQuery, 0, "first") == Some(5) && Keyword(FirstQuery, 8, "minutes") == Some(15)
    ensures Spaces1(FirstQuery, 5) == Some(6) && Spaces1(FirstQuery, 7) == Some(8)
    ensures Digits1(FirstQuery, 6) == Some(7)
    ensures FirstQuery[0..5] == "first" && FirstQuery[6..7] == "5"
  {
  }

  lemma FirstQuerySearch()
    ensures Search(FirstLast, FirstQuery) == Some(Found(0, ["first", "5"]))
  {
    FirstQueryScan();
    assert MatchAt(FirstLast, FirstQuery, 0) == Some(["first", "5"]);
  }

  lemma FirstExample()
    ensures TimeRangeOf(FirstQuery) == Ok(TimeRange(Some(0.0), Some(300.0)))
  {
    FirstLastLetters(FirstQuery);
    FirstQuerySearch();
    FirstLastRule(FirstQuery);
    FirstFiveRange();
  }

  lemma FirstFiveRange()
    ensures RangeOfMatch(FirstLast, ["first", "5"]) == Ok(TimeRange(Some(0.0), Some(300.0)))
  {
    assert DigitsValue("5") == 5;
    FirstLastRange(["first", "5"]);
  }

  const LastQuery := "LAST 10 MINUTES"

  lemma LastQueryScan()
    ensures Keyword(LastQuery, 0, "first").None? && Keyword(LastQuery, 0, "last") == Some(4)
    ensures Keyword(LastQuery, 8, "minutes") == Some(15)
    ensures Spaces1(LastQuery, 4) == Some(5) && Spaces1(LastQuery, 7) == Some(8)
    ensures Digits1(LastQuery, 5) == Some(7)
    ensures LastQuery[0..4] == "LAST" && LastQuery[5..7] == "10"
  {
    LastQueryWords();
    LastQueryGaps();
  }

  lemma LastQueryWords()
    ensures Keyword(LastQuery, 0, "first").None? && Keyword(LastQuery, 0, "last") == Some(4)
    ensures Keyword(LastQuery, 8, "minutes") == Some(15)
  {
    var q := LastQuery;
    assert q[0..4] == "LAST";
    LastWord();
    assert Lower(q[0..5])[0] == 'l';
    assert q[8..15] == "MINUTES";
    LastMinutesWord();
  }

  lemma LastMinutesWord()
    ensures Lower("MINUTES") == "minutes"
  {
    var w := Lower("MINUTES");
    assert w[0] == 'm' && w[1] == 'i' && w[2] == 'n' && w[3] == 'u' && w[4] == 't' && w[5] == 'e' && w[6] == 's';
  }

  lemma LastQueryGaps()
    ensures Spaces1(LastQuery, 4) == Some(5) && Spaces1(LastQuery, 7) == Some(8)
    ensures Digits1(LastQuery, 5) == Some(7)
    ensures LastQuery[0..4] == "LAST" && LastQuery[5..7] == "10"
  {
    var q := LastQuery;
    assert q[4] == ' ' && q[5] == '1' && q[6] == '0' && q[7] == ' ' && q[8] == 'M';
    assert SpacesEnd(q, 5) == 5;
    assert SpacesEnd(q, 8) == 8;
    assert DigitsEnd(q, 7) == 7;
    assert DigitsEnd(q, 5) == 7;
  }

  lemma LastQuerySearch()
    ensures Search(FirstLast, LastQuery) == Some(Found(0, ["LAST", "10"]))
  {
    LastQueryScan();
    assert MatchAt(FirstLast, LastQuery, 0) == Some(["LAST", "10"]);
  }

  /** The upper-case query is read like "last 10 minutes". */
  lemma LastExample()
    ensures TimeRangeOf(LastQuery) == Ok(TimeRange(Some(-600.0), None))
  {
    FirstLastLetters(LastQuery);
    LastQuerySearch();
    FirstLastRule(LastQuery);
    LastTenRange();
  }

  lemma LastTenRange()
    ensures RangeOfMatch(FirstLast, ["LAST", "10"]) == Ok(TimeRange(Some(-600.0), None))
  {
    LastWord();
    assert DigitsValue("10") == 10;
    FirstLastRange(["LAST", "10"]);
  }

  lemma LastWord()
    ensures Lower("LAST") == "last" && Lower("LAST") != "first"
  {
    assert Lower("LAST")[0] == 'l';
  }

  // ---------------------------------------------------------------------------
  // A query that names no time

  const PlainQuery := "what is said"

  lemma PlainExample()
    ensures TimeRangeOf(PlainQuery) == Ok(NoRange)
  {
    var q := PlainQuery;
    assert forall k :: 0 <= k < |q| ==> LowerChar(q[k]) !in "ob-ku";
    forall rule ensures Search(rule, q).None? {
      NoMatchWithoutNeeded(rule, q);
    }
    NoRangeIffNoPattern(q);
  }
}
