/** Selecting the transcript segments that overlap a time range and joining
    their text (`find_segments_in_time_range`, `extract_text_from_segments` and
    `get_context_around_timestamp` in utils/timestamp_utils.py). */
module Segments {
  import opened Common
  import opened Text
  import opened Seqs
  import opened Transcripts

  /** The inclusive overlap test, reading a missing start or end as 0. */
  predicate Overlaps(s: Segment, lo: real, hi: real) {
    s.end.GetOr(0.0) >= lo && s.start.GetOr(0.0) <= hi
  }

  function OverlapTest(lo: real, hi: real): Segment -> bool {
    s => Overlaps(s, lo, hi)
  }

  /** The segments of `t` that overlap `[lo, hi]`, in transcript order. */
  function InRange(t: TranscriptData, lo: real, hi: real): seq<Segment> {
    Filter(SegmentsOf(t), OverlapTest(lo, hi))
  }

  /** `find_segments_in_time_range`: one pass over the segments, appending each one that overlaps. */
  method FindSegmentsInTimeRange(t: TranscriptData, startTime: real, endTime: real) returns (matching: seq<Segment>)
    ensures matching == InRange(t, startTime, endTime)
  {
    matching := [];
    var segments := SegmentsOf(t);
    for k := 0 to |segments|
      invariant matching == Filter(segments[..k], OverlapTest(startTime, endTime))
    {
      var segment := segments[k];
      var segStart := segment.start.GetOr(0.0);
      var segEnd := segment.end.GetOr(0.0);
      assert segments[..k + 1] == segments[..k] + [segment];
      FilterSnoc(segments[..k], segment, OverlapTest(startTime, endTime));
      if segEnd >= startTime && segStart <= endTime {
        matching := matching + [segment];
      }
    }
    assert segments[..|segments|] == segments;
  }

  /** The selection holds exactly the overlapping segments, each as often as in
      the transcript, and keeps their order. */
  lemma InRangeMeaning(t: TranscriptData, lo: real, hi: real)
    ensures forall s :: s in InRange(t, lo, hi) <==> s in SegmentsOf(t) && Overlaps(s, lo, hi)
    ensures forall s :: multiset(InRange(t, lo, hi))[s] == if Overlaps(s, lo, hi) then multiset(SegmentsOf(t))[s] else 0
    ensures IsSubsequence(InRange(t, lo, hi), SegmentsOf(t))
  {
    FilterSpec(SegmentsOf(t), OverlapTest(lo, hi));
  }

  /** A wider range selects every segment a narrower one does, in the same order. */
  lemma InRangeWiden(t: TranscriptData, lo: real, hi: real, lo': real, hi': real)
    requires lo' <= lo && hi <= hi'
    ensures IsSubsequence(InRange(t, lo, hi), InRange(t, lo', hi'))
  {
    FilterWeaker(SegmentsOf(t), OverlapTest(lo, hi), OverlapTest(lo', hi'));
  }

  /** `extract_text_from_segments`: the texts, a missing one read as "", joined by single spaces. */
  function ExtractText(segments: seq<Segment>): string {
    Join(" ", Texts(segments))
  }

  function Texts(segments: seq<Segment>): (texts: seq<string>)
    ensures |texts| == |segments|
  {
    seq(|segments|, k requires 0 <= k < |segments| => segments[k].text.GetOr(""))
  }

  /** No segments give the empty text; otherwise the text has the segments' texts
      and one space between each two of them, and when no text holds a space
      the texts can be read back by splitting on spaces. */
  lemma ExtractTextParts(segments: seq<Segment>)
    ensures |segments| == 0 ==> ExtractText(segments) == ""
    ensures |segments| > 0 ==> |ExtractText(segments)| == TotalLength(Texts(segments)) + |segments| - 1
    ensures |segments| > 0 && (forall k :: 0 <= k < |segments| ==> ' ' !in Texts(segments)[k]) ==>
      Split(ExtractText(segments), ' ') == Texts(segments)
  {
    if |segments| > 0 && (forall k :: 0 <= k < |segments| ==> ' ' !in Texts(segments)[k]) {
      JoinThenSplit(' ', Texts(segments));
    }
  }

  // ---------------------------------------------------------------------------
  // get_context_around_timestamp

  /** `max(0, timestamp - window_seconds)`. */
  function WindowStart(timestamp: real, windowSeconds: real): (lo: real)
    ensures lo >= 0.0 && lo >= timestamp - windowSeconds
    ensures lo == 0.0 || lo == timestamp - windowSeconds
  {
    if timestamp - windowSeconds > 0.0 then timestamp - windowSeconds else 0.0
  }

  /** The segments overlapping the window of `windowSeconds` either side of
      `timestamp`, the window's start clamped at 0. */
  function ContextSegments(t: TranscriptData, timestamp: real, windowSeconds: real): seq<Segment> {
    InRange(t, WindowStart(timestamp, windowSeconds), timestamp + windowSeconds)
  }

  /** `get_context_around_timestamp`; its window defaults to 60 seconds. */
  function ContextAroundTimestamp(t: TranscriptData, timestamp: real, windowSeconds: real := 60.0): string {
    ExtractText(ContextSegments(t, timestamp, windowSeconds))
  }

  /** A segment that covers a timestamp at or after 0 is in its context. */
  lemma ContextHasCoveringSegment(t: TranscriptData, timestamp: real, windowSeconds: real, s: Segment)
    requires timestamp >= 0.0 && windowSeconds >= 0.0 && s in SegmentsOf(t)
    requires s.start.GetOr(0.0) <= timestamp <= s.end.GetOr(0.0)
    ensures s in ContextSegments(t, timestamp, windowSeconds)
  {
    InRangeMeaning(t, WindowStart(timestamp, windowSeconds), timestamp + windowSeconds);
  }

  /** Clamping the window's start at 0 changes nothing for a transcript whose
      segments all end at or after time 0. */
  lemma ClampHarmless(t: TranscriptData, timestamp: real, windowSeconds: real)
    requires forall k :: 0 <= k < |SegmentsOf(t)| ==> SegmentsOf(t)[k].end.GetOr(0.0) >= 0.0
    ensures ContextSegments(t, timestamp, windowSeconds) == InRange(t, timestamp - windowSeconds, timestamp + windowSeconds)
  {
    var lo := WindowStart(timestamp, windowSeconds);
    var hi := timestamp + windowSeconds;
    FilterSame(SegmentsOf(t), OverlapTest(lo, hi), OverlapTest(timestamp - windowSeconds, hi));
  }
}
