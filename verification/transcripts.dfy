/** The transcript record that the transcriber produces, the transcript files
    hold and the queries read. A JSON object becomes a datatype with one
    `Option` field per key, `None` standing for a missing key. */
module Transcripts {
  import opened Common

  /** A value in a transcript's `metadata` object: text, a number, or the
      `transcription` record the transcriber adds. */
  datatype MetaValue =
    | Str(s: string)
    | Num(n: real)
    | Transcription(model: string, language: Option<string>, device: string)

  type Metadata = map<string, MetaValue>

  /** A sentence-level segment with its start and end times in seconds and their formatted forms. */
  datatype Segment = Segment(
    id: Option<int>,
    start: Option<real>,
    end: Option<real>,
    text: Option<string>,
    startFormatted: Option<string>,
    endFormatted: Option<string>)

  /** A word-level entry. */
  datatype Word = Word(
    word: Option<string>,
    start: Option<real>,
    end: Option<real>,
    startFormatted: Option<string>,
    endFormatted: Option<string>)

  datatype TranscriptData = TranscriptData(
    metadata: Option<Metadata>,
    transcript: Option<string>,
    segments: Option<seq<Segment>>,
    words: Option<seq<Word>>)

  /** `transcript_data.get("segments", [])`. */
  function SegmentsOf(t: TranscriptData): seq<Segment> {
    t.segments.GetOr([])
  }
}
