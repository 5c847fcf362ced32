/** The part of src/transcriber.py that turns a speech-recognition result into
    a transcript record: its own timestamp formatter, which keeps
    milliseconds, and the segment and word mapping. */
module Transcriber {
  import opened Common
  import opened Text
  import opened Timestamp
  import opened Transcripts

  // ---------------------------------------------------------------------------
  // _format_timestamp

  /** `td.microseconds`: the microseconds of the rounded time past its whole second;
      `td.seconds` is `DaySeconds`, shared with utils/timestamp_utils.py. */
  function TdMicroseconds(x: real): (n: nat)
    ensures n < 1000000
  {
    Microseconds(x) % 1000000
  }

  /** `_format_timestamp`: "00:00:00" for `None`, otherwise `HH:MM:SS.mmm` with
      the milliseconds cut down from the microseconds. */
  function FormatTimestamp(seconds: Option<real>): (r: string)
    ensures seconds.None? ==> r == "00:00:00"
    ensures seconds.Some? ==> |r| == 12 && r[2] == ':' && r[5] == ':' && r[8] == '.'
  {
    match seconds
    case None => "00:00:00"
    case Some(x) => MillisecondClock(DaySeconds(x), TdMicroseconds(x) / 1000)
  }

  /** `HH:MM:SS.mmm` for a number of seconds into the day and a millisecond count. */
  function MillisecondClock(day: nat, milliseconds: nat): (r: string)
    requires day < 86400 && milliseconds < 1000
    ensures |r| == 12 && r[2] == ':' && r[5] == ':' && r[8] == '.'
  {
    var hours, remainder := day / 3600, day % 3600;
    var minutes, secs := remainder / 60, remainder % 60;
    Pad2(hours) + ":" + Pad2(minutes) + ":" + MillisecondField(secs, milliseconds)
  }

  /** `{seconds:02d}.{milliseconds:03d}`. */
  function MillisecondField(secs: nat, milliseconds: nat): (r: string)
    requires secs < 60 && milliseconds < 1000
    ensures |r| == 6
  {
    Pad2(secs) + "." + Pad3(milliseconds)
  }

  /** Up to the seconds, `_format_timestamp` writes what `format_seconds_to_timestamp` does without milliseconds. */
  lemma SameClockAsUtils(x: real)
    ensures FormatTimestamp(Some(x))[..8] == FormatSecondsToTimestamp(Some(x), false)
  {
    var day := DaySeconds(x);
    var hours, remainder := day / 3600, day % 3600;
    var minutes, secs := remainder / 60, remainder % 60;
    assert FormatSecondsToTimestamp(Some(x), false) == Pad2(hours) + ":" + Pad2(minutes) + ":" + Pad2(secs);
    assert FormatTimestamp(Some(x)) == Pad2(hours) + ":" + Pad2(minutes) + ":" + MillisecondField(secs, TdMicroseconds(x) / 1000);
  }

  /** The three millisecond digits read after a decimal point are the milliseconds as a fraction. */
  lemma FractionOfMilliseconds(n: nat)
    requires n < 1000
    ensures FractionValue(Pad3(n)) == n as real / 1000.0
  {
    var s := Pad3(n);
    assert DigitValue(s[0]) == n / 100 && DigitValue(s[1]) == n / 10 % 10 && DigitValue(s[2]) == n % 10;
    assert s[1..][1..][1..] == [];
    assert FractionValue(s[1..][1..]) == (DigitValue(s[2]) as real) / 10.0;
    assert FractionValue(s[1..]) == (DigitValue(s[1]) as real + FractionValue(s[1..][1..])) / 10.0;
    assert n == 100 * (n / 100) + 10 * (n / 10 % 10) + n % 10;
  }

  /** Every time within the day in whole milliseconds is a millisecond count
      over 1000, the form the round trip below is stated in. */
  lemma WholeMilliseconds(x: real) returns (n: nat)
    requires 0.0 <= x < 86400.0 && (x * 1000.0).Floor as real == x * 1000.0
    ensures n < 86400000 && x == n as real / 1000.0
  {
    n := (x * 1000.0).Floor;
  }

  /** The time of n milliseconds has n / 1000 whole seconds and n % 1000 milliseconds. */
  lemma MillisecondsFields(n: nat)
    requires n < 86400000
    ensures DaySeconds(n as real / 1000.0) == n / 1000 && TdMicroseconds(n as real / 1000.0) / 1000 == n % 1000
  {
    assert (n as real / 1000.0) * 1000000.0 == (n * 1000) as real;
    assert Microseconds(n as real / 1000.0) == n * 1000;
  }

  /** `float()` reads the seconds field as seconds plus milliseconds. */
  lemma MillisecondFieldThenParse(secs: nat, ms: nat)
    requires secs < 60 && ms < 1000
    ensures ':' !in MillisecondField(secs, ms)
    ensures ParseFloat(MillisecondField(secs, ms)) == Ok(secs as real + ms as real / 1000.0)
  {
    var f := MillisecondField(secs, ms);
    DigitsNoColon(Pad2(secs));
    DigitsNoColon(Pad3(ms));
    assert forall k :: 0 <= k < |f| ==> f[k] != ':';
    ParseFloatDecimal(Pad2(secs), Pad3(ms));
    FractionOfMilliseconds(ms);
  }

  /** The fields between the colons of a millisecond clock. */
  lemma MillisecondClockFields(day: nat, ms: nat)
    requires day < 86400 && ms < 1000
    ensures Split(MillisecondClock(day, ms), ':') == [Pad2(day / 3600), Pad2(day % 3600 / 60), MillisecondField(day % 3600 % 60, ms)]
  {
    var hours, remainder := day / 3600, day % 3600;
    var minutes, secs := remainder / 60, remainder % 60;
    ClockFields(day);
    MillisecondFieldThenParse(secs, ms);
    DigitsNoColon(Pad2(hours));
    DigitsNoColon(Pad2(minutes));
    SplitThreeFields(Pad2(hours), Pad2(minutes), MillisecondField(secs, ms));
  }

  /** A formatted time of day with milliseconds is read back as its number of milliseconds over 1000. */
  lemma ClockWithMillisecondsThenParse(n: nat)
    requires n < 86400000
    ensures ParseTimestamp(MillisecondClock(n / 1000, n % 1000)) == Ok(n as real / 1000.0)
  {
    var day, ms := n / 1000, n % 1000;
    var hours, remainder := day / 3600, day % 3600;
    var minutes, secs := remainder / 60, remainder % 60;
    ClockFields(day);
    MillisecondTotal(n);
    MillisecondFieldThenParse(secs, ms);
    MillisecondClockFields(day, ms);
    ParseClockShaped(MillisecondClock(day, ms), [Pad2(hours), Pad2(minutes), MillisecondField(secs, ms)], secs as real + ms as real / 1000.0, n as real / 1000.0);
  }

  /** A millisecond count is its hours, minutes, seconds and remaining milliseconds. */
  lemma MillisecondTotal(n: nat)
    requires n < 86400000
    ensures var day := n / 1000;
      ((day / 3600) * 3600 + (day % 3600 / 60) * 60) as real + ((day % 3600 % 60) as real + (n % 1000) as real / 1000.0)
      == n as real / 1000.0
  {
    var day := n / 1000;
    ClockFields(day);
    assert n == day * 1000 + n % 1000;
    assert (day as real) + (n % 1000) as real / 1000.0 == n as real / 1000.0;
  }

  /** Round trip with `parse_timestamp`: a time within the day in whole
      milliseconds is read back exactly, milliseconds included. */
  lemma FormatTimestampThenParse(n: nat)
    requires n < 86400000
    ensures ParseTimestamp(FormatTimestamp(Some(n as real / 1000.0))) == Ok(n as real / 1000.0)
  {
    MillisecondsFields(n);
    FormatWholeMilliseconds(n as real / 1000.0, n);
    ClockWithMillisecondsThenParse(n);
  }

  /** A time in whole milliseconds is formatted from its millisecond count. */
  lemma FormatWholeMilliseconds(x: real, n: nat)
    requires n < 86400000 && DaySeconds(x) == n / 1000 && TdMicroseconds(x) / 1000 == n % 1000
    ensures FormatTimestamp(Some(x)) == MillisecondClock(n / 1000, n % 1000)
  {
  }

  // ---------------------------------------------------------------------------
  // _process_transcript

  /** The fields of a recognised segment, word and result that the mapping reads;
      `None` stands for a missing key. */
  datatype WhisperSegment = WhisperSegment(id: Option<int>, start: Option<real>, end: Option<real>, text: Option<string>)
  datatype WhisperWord = WhisperWord(word: Option<string>, start: Option<real>, end: Option<real>)
  datatype WhisperResult = WhisperResult(
    text: Option<string>,
    segments: Option<seq<WhisperSegment>>,
    words: Option<seq<WhisperWord>>)

  /** The output segment for a recognised one. */
  function FormatSegment(s: WhisperSegment): Segment {
    Segment(s.id, s.start, s.end, s.text, Some(FormatTimestamp(s.start)), Some(FormatTimestamp(s.end)))
  }

  /** The output word entry for a recognised word. */
  function FormatWord(w: WhisperWord): Word {
    Word(w.word, w.start, w.end, Some(FormatTimestamp(w.start)), Some(FormatTimestamp(w.end)))
  }

  /** The recognised segment an output segment was copied from. */
  function SourceSegment(s: Segment): WhisperSegment {
    WhisperSegment(s.id, s.start, s.end, s.text)
  }

  function SourceWord(w: Word): WhisperWord {
    WhisperWord(w.word, w.start, w.end)
  }

  /** The formatted times of a segment are the formatter applied to its times. */
  predicate SegmentTimesFormatted(s: Segment) {
    s.startFormatted == Some(FormatTimestamp(s.start)) && s.endFormatted == Some(FormatTimestamp(s.end))
  }

  predicate WordTimesFormatted(w: Word) {
    w.startFormatted == Some(FormatTimestamp(w.start)) && w.endFormatted == Some(FormatTimestamp(w.end))
  }

  /** An output segment loses nothing of its source, and its formatted times match its times. */
  lemma FormatSegmentKeepsSource(s: WhisperSegment)
    ensures SourceSegment(FormatSegment(s)) == s
    ensures SegmentTimesFormatted(FormatSegment(s))
  {
  }

  lemma FormatWordKeepsSource(w: WhisperWord)
    ensures SourceWord(FormatWord(w)) == w
    ensures WordTimesFormatted(FormatWord(w))
  {
  }

  /** `metadata or {}` with the `transcription` record added. */
  function TranscriptionMetadata(metadata: Option<Metadata>, modelName: string, language: Option<string>, device: string): (m: Metadata)
    ensures "transcription" in m && m["transcription"] == Transcription(modelName, language, device)
    ensures forall key :: key in metadata.GetOr(map[]) && key != "transcription" ==> key in m && m[key] == metadata.GetOr(map[])[key]
    ensures m.Keys == metadata.GetOr(map[]).Keys + {"transcription"}
  {
    metadata.GetOr(map[])["transcription" := Transcription(modelName, language, device)]
  }

  /** `_process_transcript`: one output segment per recognised segment and one
      word entry per recognised word, in order, with the result's text and the
      metadata extended by the transcription settings. */
  method ProcessTranscript(result: WhisperResult, metadata: Option<Metadata>, modelName: string, language: Option<string>, device: string)
    returns (data: TranscriptData)
    ensures data.metadata == Some(TranscriptionMetadata(metadata, modelName, language, device))
    ensures data.transcript == Some(result.text.GetOr(""))
    ensures data.segments.Some? && |data.segments.value| == |result.segments.GetOr([])|
    ensures forall k :: 0 <= k < |data.segments.value| ==> data.segments.value[k] == FormatSegment(result.segments.GetOr([])[k])
    ensures data.words.Some? && |data.words.value| == |result.words.GetOr([])|
    ensures forall k :: 0 <= k < |data.words.value| ==> data.words.value[k] == FormatWord(result.words.GetOr([])[k])
  {
    var segments: seq<Segment> := [];
    var words: seq<Word> := [];
    var recognised := result.segments.GetOr([]);
    for k := 0 to |recognised|
      invariant |segments| == k
      invariant forall i :: 0 <= i < k ==> segments[i] == FormatSegment(recognised[i])
    {
      segments := segments + [FormatSegment(recognised[k])];
    }
    if result.words.Some? {
      var recognisedWords := result.words.value;
      for k := 0 to |recognisedWords|
        invariant |words| == k
        invariant forall i :: 0 <= i < k ==> words[i] == FormatWord(recognisedWords[i])
      {
        words := words + [FormatWord(recognisedWords[k])];
      }
    }
    data := TranscriptData(
      Some(TranscriptionMetadata(metadata, modelName, language, device)),
      Some(result.text.GetOr("")),
      Some(segments),
      Some(words));
  }
}
