/** The timestamp parser and formatter of utils/timestamp_utils.py:
    `parse_timestamp` (text to seconds) and `format_seconds_to_timestamp`
    (seconds to `HH:MM:SS.mmm`). Times are real numbers of seconds. */
module Timestamp {
  import opened Common
  import opened Text

  // ---------------------------------------------------------------------------
  // The two number conversions parse_timestamp relies on

  /** Python's `int(s)`: surrounding whitespace, an optional sign, decimal digits. */
  function ParseInt(s: string): (r: Result<int>)
  {
    IntLiteral(Strip(s))
  }

  function IntLiteral(t: string): (r: Result<int>)
  {
    if |t| > 0 && (t[0] == '+' || t[0] == '-') && IsDigits(t[1..]) then
      var v: int := DigitsValue(t[1..]);
      Ok(if t[0] == '-' then -v else v)
    else if IsDigits(t) then Ok(DigitsValue(t))
    else Err(ValueError)
  }

  /** The value of the digits after a decimal point: ".d1d2..." is (d1 + (d2 + ...) / 10) / 10. */
  function FractionValue(f: string): (v: real)
    requires AllDigits(f)
    ensures 0.0 <= v < 1.0
  {
    if |f| == 0 then 0.0 else (DigitValue(f[0]) as real + FractionValue(f[1..])) / 10.0
  }

  /** The unsigned decimal literals `D+`, `D+.D*` and `.D+`, with their values. */
  function DecimalValue(b: string): Option<real>
  {
    var parts := Split(b, '.');
    if |parts| == 1 then
      if IsDigits(b) then Some(DigitsValue(b) as real) else None
    else if |parts| == 2 && AllDigits(parts[0]) && AllDigits(parts[1]) && |parts[0]| + |parts[1]| > 0 then
      Some(DigitsValue(parts[0]) as real + FractionValue(parts[1]))
    else None
  }

  /** Python's `float(s)` on plain decimal literals: surrounding whitespace and an optional sign. */
  function ParseFloat(s: string): (r: Result<real>)
  {
    FloatLiteral(Strip(s))
  }

  function FloatLiteral(t: string): (r: Result<real>)
  {
    var signed := |t| > 0 && (t[0] == '+' || t[0] == '-');
    match DecimalValue(if signed then t[1..] else t)
    case None => Err(ValueError)
    case Some(v) => Ok(if signed && t[0] == '-' then -v else v)
  }

  lemma DigitsNoColon(s: string)
    requires AllDigits(s)
    ensures ':' !in s && '.' !in s
  {
    assert forall k :: 0 <= k < |s| ==> s[k] != ':' && s[k] != '.';
  }

  lemma DigitsStripped(s: string)
    requires IsDigits(s)
    ensures Strip(s) == s
  {
    assert IsStripped(s);
  }

  lemma ParseIntDigits(s: string)
    requires IsDigits(s)
    ensures ParseInt(s) == Ok(DigitsValue(s))
  {
    DigitsStripped(s);
  }

  lemma ParseFloatDigits(s: string)
    requires IsDigits(s)
    ensures ParseFloat(s) == Ok(DigitsValue(s) as real)
  {
    DigitsStripped(s);
    DigitsNoColon(s);
    SplitNoSeparator(s, '.');
  }

  lemma DecimalSplit(a: string, f: string)
    requires IsDigits(a) && IsDigits(f)
    ensures Split(a + "." + f, '.') == [a, f]
    ensures Strip(a + "." + f) == a + "." + f
  {
    var s := a + "." + f;
    DigitsNoColon(a);
    DigitsNoColon(f);
    assert s == a + ['.'] + f;
    SplitAtFirst(a, '.', f);
    SplitNoSeparator(f, '.');
    assert s[0] == a[0] && s[|s| - 1] == f[|f| - 1];
    assert IsStripped(s);
  }

  lemma DecimalOfSplit(b: string, a: string, f: string)
    requires IsDigits(a) && IsDigits(f)
    requires Split(b, '.') == [a, f]
    ensures DecimalValue(b) == Some(DigitsValue(a) as real + FractionValue(f))
  {
  }

  lemma ParseFloatDecimal(a: string, f: string)
    requires IsDigits(a) && IsDigits(f)
    ensures ParseFloat(a + "." + f) == Ok(DigitsValue(a) as real + FractionValue(f))
  {
    var s := a + "." + f;
    DecimalSplit(a, f);
    DecimalOfSplit(s, a, f);
    assert s[0] == a[0];
  }

  /** A decimal literal has no colon in it. */
  lemma DecimalHasNoColon(b: string)
    requires DecimalValue(b).Some?
    ensures ':' !in b
  {
    var parts := Split(b, '.');
    SplitThenJoin(b, '.');
    if |parts| == 1 {
      DigitsNoColon(b);
    } else {
      DigitsNoColon(parts[0]);
      DigitsNoColon(parts[1]);
      assert b == parts[0] + "." + parts[1];
    }
  }

  /** `float()` never accepts a colon. */
  lemma ParseFloatRejectsColon(s: string)
    requires ':' in s
    ensures ParseFloat(s).Err?
  {
    var k :| 0 <= k < |s| && s[k] == ':';
    StripKeeps(s, k);
    var t := Strip(s);
    var signed := |t| > 0 && (t[0] == '+' || t[0] == '-');
    var b := if signed then t[1..] else t;
    assert ':' in b by {
      var i :| 0 <= i < |t| && t[i] == ':';
      if signed {
        assert b[i - 1] == ':';
      }
    }
    if DecimalValue(b).Some? {
      DecimalHasNoColon(b);
    }
  }

  // ---------------------------------------------------------------------------
  // parse_timestamp

  /** The colon forms of parse_timestamp on the fields between the colons:
      `H:M:S` for three fields, `M:S` for two. Hours and minutes go through
      `int()` and seconds through `float()`, and their ValueError escapes. */
  function ParseClock(fields: seq<string>): (r: Result<real>)
    requires |fields| == 2 || |fields| == 3
  {
    if |fields| == 3 then
      var h :- ParseInt(fields[0]);
      var m :- ParseInt(fields[1]);
      var sec :- ParseFloat(fields[2]);
      Ok((h * 3600 + m * 60) as real + sec)
    else
      var m :- ParseInt(fields[0]);
      var sec :- ParseFloat(fields[1]);
      Ok((m * 60) as real + sec)
  }

  /** `parse_timestamp`: two colons read `H:M:S`, one colon `M:S`, anything else is
      bare seconds, with 0.0 for text `float()` rejects. */
  function ParseTimestamp(s: string): (r: Result<real>)
    ensures Count(s, ':') != 1 && Count(s, ':') != 2 ==> r.Ok?
    ensures Count(s, ':') == 0 && ParseFloat(s).Ok? ==> r == ParseFloat(s)
    ensures Count(s, ':') == 0 && ParseFloat(s).Err? ==> r == Ok(0.0)
    ensures Count(s, ':') >= 3 ==> r == Ok(0.0)
  {
    var colons := Count(s, ':');
    if colons == 1 || colons == 2 then
      ParseClock(Split(s, ':'))
    else if colons >= 3 then
      CountZero(s, ':');
      ParseFloatRejectsColon(s);
      Ok(0.0)
    else
      match ParseFloat(s)
      case Ok(v) => Ok(v)
      case Err(_) => Ok(0.0)
  }

  /** A string built from three colon-free fields splits back into them. */
  lemma SplitThreeFields(h: string, m: string, sec: string)
    requires ':' !in h && ':' !in m && ':' !in sec
    ensures |Split(h + ":" + m + ":" + sec, ':')| == 3
    ensures Split(h + ":" + m + ":" + sec, ':')[0] == h
    ensures Split(h + ":" + m + ":" + sec, ':')[1] == m
    ensures Split(h + ":" + m + ":" + sec, ':')[2] == sec
  {
    assert h + ":" + m + ":" + sec == h + [':'] + (m + [':'] + sec);
    SplitAtFirst(h, ':', m + [':'] + sec);
    SplitAtFirst(m, ':', sec);
    SplitNoSeparator(sec, ':');
  }

  /** With one or two colons, parse_timestamp reads the fields between them. */
  lemma ParseTimestampClock(s: string)
    requires Count(s, ':') == 1 || Count(s, ':') == 2
    ensures ParseTimestamp(s) == ParseClock(Split(s, ':'))
  {
  }

  /** With one or two colons, parse_timestamp raises exactly when `int()` rejects
      the hours or the minutes or `float()` rejects the seconds field. */
  lemma ParseClockRaises(s: string)
    requires Count(s, ':') == 1 || Count(s, ':') == 2
    ensures var fields := Split(s, ':');
      ParseTimestamp(s).Err? <==>
        ParseInt(fields[0]).Err? || (|fields| == 3 && ParseInt(fields[1]).Err?) || ParseFloat(fields[|fields| - 1]).Err?
  {
    ParseTimestampClock(s);
  }

  /** A bare digit string reads as its value. */
  lemma ParseBareDigits(s: string)
    requires IsDigits(s)
    ensures ParseTimestamp(s) == Ok(DigitsValue(s) as real)
  {
    DigitsNoColon(s);
    CountZero(s, ':');
    ParseFloatDigits(s);
  }

  /** The `H:M:S` form on fields that `int()` and `float()` accept. */
  lemma ClockOfThreeFields(fields: seq<string>, hv: int, mv: int, sv: real)
    requires |fields| == 3
    requires ParseInt(fields[0]) == Ok(hv) && ParseInt(fields[1]) == Ok(mv) && ParseFloat(fields[2]) == Ok(sv)
    ensures ParseClock(fields) == Ok((hv * 3600 + mv * 60) as real + sv)
  {
  }

  /** `H:M:S` with digit-string hours and minutes. */
  lemma ClockOfDigits(fields: seq<string>, v: real)
    requires |fields| == 3 && IsDigits(fields[0]) && IsDigits(fields[1])
    requires ParseFloat(fields[2]) == Ok(v)
    ensures ParseClock(fields) == Ok((DigitsValue(fields[0]) * 3600 + DigitsValue(fields[1]) * 60) as real + v)
  {
    ParseIntDigits(fields[0]);
    ParseIntDigits(fields[1]);
    ClockOfThreeFields(fields, DigitsValue(fields[0]), DigitsValue(fields[1]), v);
  }

  /** The `M:S` form on fields that `int()` and `float()` accept. */
  lemma ClockOfTwoFields(fields: seq<string>, mv: int, sv: real)
    requires |fields| == 2
    requires ParseInt(fields[0]) == Ok(mv) && ParseFloat(fields[1]) == Ok(sv)
    ensures ParseClock(fields) == Ok((mv * 60) as real + sv)
  {
  }

  /** A string built from two colon-free fields splits back into them. */
  lemma SplitTwoFields(m: string, sec: string)
    requires ':' !in m && ':' !in sec
    ensures |Split(m + ":" + sec, ':')| == 2
    ensures Split(m + ":" + sec, ':')[0] == m
    ensures Split(m + ":" + sec, ':')[1] == sec
  {
    assert m + ":" + sec == m + [':'] + sec;
    SplitAtFirst(m, ':', sec);
    SplitNoSeparator(sec, ':');
  }

  /** Any text whose colon splits it into digit-string minutes and a seconds field `float()` reads as `v`. */
  lemma ParseMinutesShaped(s: string, fields: seq<string>, v: real, total: real)
    requires Split(s, ':') == fields && |fields| == 2
    requires IsDigits(fields[0]) && ParseFloat(fields[1]) == Ok(v)
    requires total == (DigitsValue(fields[0]) * 60) as real + v
    ensures ParseTimestamp(s) == Ok(total)
  {
    ParseTimestampClock(s);
    ParseIntDigits(fields[0]);
    ClockOfTwoFields(fields, DigitsValue(fields[0]), v);
  }

  // ---------------------------------------------------------------------------
  // format_seconds_to_timestamp

  /** Python's `round()` to an integer: the nearest integer, a tie going to the even one. */
  function RoundHalfEven(v: real): (r: int)
    ensures -0.5 <= r as real - v <= 0.5
    ensures (r as real - v == 0.5 || v - r as real == 0.5) ==> r % 2 == 0
  {
    var f := v.Floor;
    var d := v - f as real;
    if d < 0.5 then f
    else if d > 0.5 then f + 1
    else if f % 2 == 0 then f else f + 1
  }

  /** `timedelta(seconds=x)` held as a whole number of microseconds: the time is
      rounded to the microsecond, half to even. */
  function Microseconds(x: real): int {
    RoundHalfEven(x * 1000000.0)
  }

  /** `timedelta(seconds=x).seconds`: the whole seconds of the rounded time into
      the day, so that a negative time wraps into the previous day. */
  function DaySeconds(x: real): (n: nat)
    ensures n < 86400
  {
    (Microseconds(x) / 1000000) % 86400
  }

  /** `timedelta` raises OverflowError when the rounded time, counted in whole
      days (rounded down), lies beyond 999999999 days either way. */
  predicate TimedeltaOverflows(x: real) {
    var days := Microseconds(x) / 86400000000;
    days < -999999999 || days > 999999999
  }

  /** The limits in seconds: every time from -999999999 days up to one second
      short of 1000000000 days is accepted, and everything a second or more
      beyond either end is refused. */
  lemma OverflowBounds(x: real)
    ensures -86399999913600.0 <= x <= 86399999999999.0 ==> !TimedeltaOverflows(x)
    ensures x >= 86400000000000.0 || x <= -86399999913601.0 ==> TimedeltaOverflows(x)
  {
    var u := Microseconds(x);
    if -86399999913600.0 <= x <= 86399999999999.0 {
      assert -86399999913600000000 <= u <= 86399999999999000000;
    }
    if x >= 86400000000000.0 {
      assert u >= 86400000000000000000;
    }
    if x <= -86399999913601.0 {
      assert u <= -86399999913601000000;
    }
  }

  /** A microsecond count within second f lies in that second. */
  lemma MicrosecondsInSecond(f: int, u: int)
    requires f * 1000000 <= u < f * 1000000 + 1000000
    ensures u / 1000000 == f
  {
  }

  /** The seconds into the day are those of x's whole seconds, or of the next
      second once the fraction is within half a microsecond of it. */
  lemma DaySecondsOfTime(x: real)
    ensures x - x.Floor as real < 0.9999995 ==> DaySeconds(x) == x.Floor % 86400
    ensures x - x.Floor as real >= 0.9999995 ==> DaySeconds(x) == (x.Floor + 1) % 86400
  {
    var f := x.Floor;
    var d := x - f as real;
    var base := f * 1000000;
    var u := Microseconds(x);
    assert x * 1000000.0 == base as real + d * 1000000.0;
    if d < 0.9999995 {
      assert base <= u < base + 1000000;
      MicrosecondsInSecond(f, u);
    } else {
      assert base + 999999 <= u <= base + 1000000;
      assert (base + 999999) % 2 == 1 by {
        assert base + 999999 == 2 * (f * 500000 + 499999) + 1;
      }
      assert u == base + 1000000;
      MicrosecondsInSecond(f + 1, u);
    }
  }

  /** A whole number of seconds is exactly representable and wraps into the day. */
  lemma DaySecondsOfWhole(k: int)
    ensures DaySeconds(k as real) == k % 86400
  {
    DaySecondsOfTime(k as real);
  }

  /** The seconds field of a formatted time: `{s:02d}`, followed by `.{ms:03d}` when
      milliseconds are asked for. The seconds come from `divmod` on an integer, so
      `seconds % 1`, and with it the millisecond count, is always zero. */
  function SecondsField(secs: nat, includeMs: bool): (r: string)
    requires secs < 60
    ensures |r| == (if includeMs then 6 else 2)
    ensures includeMs ==> r[2..] == ".000"
  {
    if includeMs then
      var milliseconds := (secs % 1) * 1000;
      Pad2(secs) + "." + Pad3(milliseconds)
    else Pad2(secs)
  }

  /** `HH:MM:SS[.mmm]` for a number of seconds into the day. */
  function ClockText(day: nat, includeMs: bool): (r: string)
    requires day < 86400
    ensures |r| == (if includeMs then 12 else 8) && r[2] == ':' && r[5] == ':'
  {
    var hours, remainder := day / 3600, day % 3600;
    var minutes, secs := remainder / 60, remainder % 60;
    Pad2(hours) + ":" + Pad2(minutes) + ":" + SecondsField(secs, includeMs)
  }

  /** A time formats as the clock text of its seconds into the day. */
  lemma FormatFromDaySeconds(x: real, day: nat, includeMs: bool)
    requires day < 86400 && DaySeconds(x) == day
    ensures FormatSecondsToTimestamp(Some(x), includeMs) == ClockText(day, includeMs)
  {
  }

  /** A time within the day that does not round up into the next second keeps its whole seconds. */
  lemma DaySecondsWithinDay(x: real)
    requires 0.0 <= x < 86400.0 && x - x.Floor as real < 0.9999995
    ensures DaySeconds(x) == x.Floor
  {
    DaySecondsOfTime(x);
  }

  /** `format_seconds_to_timestamp`: "00:00:00" for `None`, otherwise the time of day
      that `timedelta(seconds=x)` wraps `x` into. */
  function FormatSecondsToTimestamp(seconds: Option<real>, includeMs: bool): (r: string)
    ensures seconds.None? ==> r == "00:00:00"
    ensures seconds.Some? ==> |r| == (if includeMs then 12 else 8) && r[2] == ':' && r[5] == ':'
  {
    match seconds
    case None => "00:00:00"
    case Some(x) => ClockText(DaySeconds(x), includeMs)
  }

  /** With milliseconds, the formatted time always ends in ".000". */
  lemma FormatMillisecondsZero(x: real)
    ensures FormatSecondsToTimestamp(Some(x), true)[8..] == ".000"
  {
    var day := DaySeconds(x);
    var secs := day % 3600 % 60;
    var r := FormatSecondsToTimestamp(Some(x), true);
    assert r[8..] == SecondsField(secs, true)[2..];
  }

  /** The fields of a formatted time of day put back together give the time of day. */
  lemma ClockFields(day: nat)
    requires day < 86400
    ensures day / 3600 < 24
    ensures (day / 3600) * 3600 + (day % 3600 / 60) * 60 + day % 3600 % 60 == day
  {
  }

  /** `float()` reads the seconds field back as the whole seconds. */
  lemma SecondsFieldThenParse(secs: nat, includeMs: bool)
    requires secs < 60
    ensures ':' !in SecondsField(secs, includeMs)
    ensures ParseFloat(SecondsField(secs, includeMs)) == Ok(secs as real)
  {
    DigitsNoColon(Pad2(secs));
    if includeMs {
      DigitsNoColon(Pad3(0));
      ParseFloatDecimal(Pad2(secs), Pad3(0));
      assert FractionValue(Pad3(0)) == 0.0;
      var f := SecondsField(secs, includeMs);
      assert f == Pad2(secs) + "." + Pad3(0);
      assert forall k :: 0 <= k < |f| ==> f[k] != ':';
    } else {
      ParseFloatDigits(Pad2(secs));
    }
  }

  /** Parsing a formatted time of day gives back the time of day. */
  lemma ClockTextThenParse(day: nat, includeMs: bool)
    requires day < 86400
    ensures ParseTimestamp(ClockText(day, includeMs)) == Ok(day as real)
  {
    var hours, remainder := day / 3600, day % 3600;
    var minutes, secs := remainder / 60, remainder % 60;
    ClockFields(day);
    SecondsFieldThenParse(secs, includeMs);
    ClockTextFields(day, includeMs);
    ParseClockShaped(ClockText(day, includeMs), [Pad2(hours), Pad2(minutes), SecondsField(secs, includeMs)], secs as real, day as real);
  }

  /** The fields between the colons of a formatted time are its two-digit hours and minutes and its seconds field. */
  lemma ClockTextFields(day: nat, includeMs: bool)
    requires day < 86400
    ensures Split(ClockText(day, includeMs), ':') == [Pad2(day / 3600), Pad2(day % 3600 / 60), SecondsField(day % 3600 % 60, includeMs)]
  {
    var hours, remainder := day / 3600, day % 3600;
    var minutes, secs := remainder / 60, remainder % 60;
    ClockFields(day);
    SecondsFieldThenParse(secs, includeMs);
    DigitsNoColon(Pad2(hours));
    DigitsNoColon(Pad2(minutes));
    SplitThreeFields(Pad2(hours), Pad2(minutes), SecondsField(secs, includeMs));
  }

  /** Any text whose colons split it into digit-string hours and minutes and a seconds field `float()` reads as `v`. */
  lemma ParseClockShaped(s: string, fields: seq<string>, v: real, total: real)
    requires Split(s, ':') == fields && |fields| == 3
    requires IsDigits(fields[0]) && IsDigits(fields[1]) && ParseFloat(fields[2]) == Ok(v)
    requires total == (DigitsValue(fields[0]) * 3600 + DigitsValue(fields[1]) * 60) as real + v
    ensures ParseTimestamp(s) == Ok(total)
  {
    ParseTimestampClock(s);
    ClockOfDigits(fields, v);
  }

  /** Round trip: parsing a formatted time gives back its whole seconds into the
      day, those of the next second when the fraction rounds up into it. */
  lemma FormatThenParse(x: real, includeMs: bool)
    ensures ParseTimestamp(FormatSecondsToTimestamp(Some(x), includeMs)) == Ok(DaySeconds(x) as real)
    ensures x - x.Floor as real < 0.9999995 ==>
      ParseTimestamp(FormatSecondsToTimestamp(Some(x), includeMs)) == Ok((x.Floor % 86400) as real)
    ensures x - x.Floor as real >= 0.9999995 ==>
      ParseTimestamp(FormatSecondsToTimestamp(Some(x), includeMs)) == Ok(((x.Floor + 1) % 86400) as real)
  {
    DaySecondsOfTime(x);
    ClockTextThenParse(DaySeconds(x), includeMs);
  }

  /** For whole numbers of seconds within one day the round trip is exact. */
  lemma FormatThenParseWholeSeconds(x: real, includeMs: bool)
    requires 0.0 <= x < 86400.0 && x.Floor as real == x
    ensures ParseTimestamp(FormatSecondsToTimestamp(Some(x), includeMs)) == Ok(x)
  {
    DaySecondsWithinDay(x);
    FormatThenParse(x, includeMs);
  }

  /** Only the second the time rounds to reaches the output: a fraction below
      0.9999995 is dropped, and one at least that large carries into the next
      second, and from there into the minutes, the hours and the next day. */
  lemma FormatRoundsToSecond(x: real, includeMs: bool)
    ensures x - x.Floor as real < 0.9999995 ==>
      FormatSecondsToTimestamp(Some(x), includeMs) == FormatSecondsToTimestamp(Some(x.Floor as real), includeMs)
    ensures x - x.Floor as real >= 0.9999995 ==>
      FormatSecondsToTimestamp(Some(x), includeMs) == FormatSecondsToTimestamp(Some((x.Floor + 1) as real), includeMs)
  {
    DaySecondsOfTime(x);
    DaySecondsOfWhole(x.Floor);
    DaySecondsOfWhole(x.Floor + 1);
  }
}
