module TimestampExamples {
  import opened Common
  import opened Text
  import opened Timestamp

  lemma ParseMinutesSecondsExample()
    ensures ParseTimestamp("5:30") == Ok(330.0)
  {
    var s := "5:30";
    assert s == "5" + ":" + "30";
    assert DigitsValue("5") == 5 && DigitsValue("30") == 30;
    DigitsNoColon("5");
    DigitsNoColon("30");
    SplitTwoFields("5", "30");
    ParseFloatDigits("30");
    ParseMinutesShaped(s, Split(s, ':'), 30.0, 330.0);
  }

  lemma ParseHoursExample()
    ensures ParseTimestamp("1:20:15") == Ok(4815.0)
  {
    var s := "1:20:15";
    assert s == "1" + ":" + "20" + ":" + "15";
    assert DigitsValue("1") == 1 && DigitsValue("20") == 20 && DigitsValue("15") == 15;
    DigitsNoColon("1");
    DigitsNoColon("20");
    DigitsNoColon("15");
    SplitThreeFields("1", "20", "15");
    ParseFloatDigits("15");
    ParseClockShaped(s, Split(s, ':'), 15.0, 4815.0);
  }

  lemma ParseBareExample()
    ensures ParseTimestamp("95") == Ok(95.0)
  {
    assert DigitsValue("95") == 95;
    DigitsNoColon("95");
    CountZero("95", ':');
    ParseFloatDigits("95");
  }

  lemma ParseTextExample()
    ensures ParseTimestamp("noon") == Ok(0.0)
  {
  }

  lemma ParseTrailingColonExample()
    ensures ParseTimestamp("5:") == Err(ValueError)
  {
  }

  lemma FormatCarryExample()
    ensures FormatSecondsToTimestamp(Some(59.9999996), true) == "00:01:00.000"
  {
    DaySecondsOfTime(59.9999996);
    FormatFromDaySeconds(59.9999996, 60, true);
    FirstMinuteOfDay();
  }

  lemma FirstMinuteOfDay()
    ensures ClockText(60, true) == "00:01:00.000"
  {
    assert 60 / 3600 == 0 && 60 % 3600 == 60 && 60 / 60 == 1 && 60 % 60 == 0;
    assert ClockText(60, true) == Pad2(0) + ":" + Pad2(1) + ":" + SecondsField(0, true);
    assert Pad2(0) == "00" && Pad2(1) == "01" && SecondsField(0, true) == "00.000";
  }

  lemma FormatDayWrapExample()
    ensures FormatSecondsToTimestamp(Some(86399.9999996), true) == "00:00:00.000"
  {
    DaySecondsOfTime(86399.9999996);
    FormatFromDaySeconds(86399.9999996, 0, true);
    Midnight();
  }

  lemma Midnight()
    ensures ClockText(0, true) == "00:00:00.000"
  {
    assert 0 / 3600 == 0 && 0 % 3600 == 0 && 0 / 60 == 0 && 0 % 60 == 0;
    assert ClockText(0, true) == Pad2(0) + ":" + Pad2(0) + ":" + SecondsField(0, true);
    assert Pad2(0) == "00" && SecondsField(0, true) == "00.000";
  }

  lemma FormatNegativeExample()
    ensures FormatSecondsToTimestamp(Some(-30.0), true) == "23:59:30.000"
  {
    DaySecondsOfWhole(-30);
    FormatFromDaySeconds(-30.0, 86370, true);
    LastMinuteOfDay();
  }

  lemma LastMinuteOfDay()
    ensures ClockText(86370, true) == "23:59:30.000"
  {
    assert 86370 / 3600 == 23 && 86370 % 3600 == 3570 && 3570 / 60 == 59 && 3570 % 60 == 30;
    assert ClockText(86370, true) == Pad2(23) + ":" + Pad2(59) + ":" + SecondsField(30, true);
    assert Pad2(23) == "23";
    assert Pad2(59) == "59";
    assert SecondsField(30, true) == "30.000";
  }

  lemma FormatMinutesExample()
    ensures FormatSecondsToTimestamp(Some(330.0), false) == "00:05:30"
  {
    DaySecondsOfWhole(330);
    FormatFromDaySeconds(330.0, 330, false);
    FiveMinutesThirty();
  }

  lemma FiveMinutesThirty()
    ensures ClockText(330, false) == "00:05:30"
  {
    assert 330 / 3600 == 0 && 330 % 3600 == 330 && 330 / 60 == 5 && 330 % 60 == 30;
    assert ClockText(330, false) == Pad2(0) + ":" + Pad2(5) + ":" + SecondsField(30, false);
    assert Pad2(0) == "00" && Pad2(5) == "05" && SecondsField(30, false) == "30";
  }
}
