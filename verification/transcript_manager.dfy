/** The in-memory logic of src/transcript_manager.py: rebuilding a transcript's
    text from its segments, the file name a transcript is saved under, and the
    defaults filled in when one is loaded. */
module TranscriptManager {
  import opened Common
  import opened Text
  import opened Seqs
  import opened Paths
  import opened Transcripts

  // ---------------------------------------------------------------------------
  // get_transcript_text

  /** Each segment's `text` (missing read as ""), stripped. */
  function StrippedTexts(segments: seq<Segment>): (texts: seq<string>)
    ensures |texts| == |segments|
    ensures forall k :: 0 <= k < |texts| ==> IsStripped(texts[k])
  {
    seq(|segments|, k requires 0 <= k < |segments| => Strip(segments[k].text.GetOr("")))
  }

  function NonEmptyTest(): string -> bool {
    s => |s| > 0
  }

  /** The stripped texts that are not empty, in segment order. */
  function KeptTexts(segments: seq<Segment>): seq<string> {
    Filter(StrippedTexts(segments), NonEmptyTest())
  }

  /** The text of a transcript: its `transcript` value when it has one,
      otherwise the kept segment texts joined by single spaces. */
  function TranscriptText(t: TranscriptData): string {
    match t.transcript
    case Some(s) => s
    case None => Join(" ", KeptTexts(SegmentsOf(t)))
  }

  /** The loop's accumulator: every part followed by one space. */
  function Spaced(parts: seq<string>): string {
    if |parts| == 0 then "" else Join(" ", parts) + " "
  }

  lemma SpacedSnoc(parts: seq<string>, p: string)
    ensures Spaced(parts + [p]) == Spaced(parts) + p + " "
  {
    if |parts| > 0 {
      JoinSnoc(" ", parts, p);
    } else {
      assert parts + [p] == [p];
    }
  }

  /** The kept texts are non-empty and stripped. */
  lemma KeptTextsShape(segments: seq<Segment>)
    ensures forall k :: 0 <= k < |KeptTexts(segments)| ==> |KeptTexts(segments)[k]| > 0 && IsStripped(KeptTexts(segments)[k])
  {
    var st := StrippedTexts(segments);
    FilterSpec(st, NonEmptyTest());
    forall k | 0 <= k < |KeptTexts(segments)|
      ensures |KeptTexts(segments)[k]| > 0 && IsStripped(KeptTexts(segments)[k])
    {
      var x := KeptTexts(segments)[k];
      assert NonEmptyTest()(x);
      assert x in st;
    }
  }

  /** Non-empty stripped parts joined by spaces give a stripped text. */
  lemma JoinStripped(parts: seq<string>)
    requires forall k :: 0 <= k < |parts| ==> |parts[k]| > 0 && IsStripped(parts[k])
    ensures IsStripped(Join(" ", parts))
    ensures |parts| > 0 ==> |Join(" ", parts)| > 0
  {
    if |parts| > 0 {
      var r := Join(" ", parts);
      assert r[..|parts[0]|] == parts[0];
      assert r[0] == parts[0][0];
      JoinLastChar(" ", parts);
    }
  }

  /** Stripping the accumulator removes exactly the trailing space. */
  lemma StripSpaced(parts: seq<string>)
    requires forall k :: 0 <= k < |parts| ==> |parts[k]| > 0 && IsStripped(parts[k])
    ensures Strip(Spaced(parts)) == Join(" ", parts)
  {
    if |parts| > 0 {
      JoinStripped(parts);
      StripTrailingSpace(Join(" ", parts));
    }
  }

  /** One more text through the non-empty filter. */
  lemma KeptStep(st: seq<string>, k: nat)
    requires k < |st|
    ensures Filter(st[..k + 1], NonEmptyTest()) == Filter(st[..k], NonEmptyTest()) + (if |st[k]| > 0 then [st[k]] else [])
  {
    assert st[..k + 1] == st[..k] + [st[k]];
    FilterSnoc(st[..k], st[k], NonEmptyTest());
    assert NonEmptyTest()(st[k]) == (|st[k]| > 0);
  }

  /** `get_transcript_text`: the `transcript` value if present, otherwise each
      non-empty stripped segment text followed by a space, the whole stripped. */
  method GetTranscriptText(t: TranscriptData) returns (text: string)
    ensures text == TranscriptText(t)
  {
    if t.transcript.Some? {
      return t.transcript.value;
    }
    var segments := SegmentsOf(t);
    if |segments| == 0 {
      return "";
    }
    var transcriptText := "";
    ghost var st := StrippedTexts(segments);
    for k := 0 to |segments|
      invariant transcriptText == Spaced(Filter(st[..k], NonEmptyTest()))
    {
      var s := Strip(segments[k].text.GetOr(""));
      assert st[k] == s;
      KeptStep(st, k);
      ghost var before := Filter(st[..k], NonEmptyTest());
      if |s| > 0 {
        assert Filter(st[..k + 1], NonEmptyTest()) == before + [s];
        SpacedSnoc(before, s);
        transcriptText := transcriptText + s + " ";
      } else {
        assert Filter(st[..k + 1], NonEmptyTest()) == before;
      }
    }
    assert st[..|segments|] == st;
    KeptTextsShape(segments);
    StripSpaced(KeptTexts(segments));
    text := Strip(transcriptText);
  }

  /** Without a `transcript` value the text has no surrounding whitespace, is
      empty exactly when no segment has a non-blank text, and splits on
      spaces back into the segment texts when none of them holds a space. */
  lemma TranscriptTextFromSegments(t: TranscriptData)
    requires t.transcript.None?
    ensures IsStripped(TranscriptText(t))
    ensures TranscriptText(t) == "" <==> |KeptTexts(SegmentsOf(t))| == 0
    ensures |SegmentsOf(t)| == 0 ==> TranscriptText(t) == ""
    ensures var kept := KeptTexts(SegmentsOf(t));
      |kept| > 0 && (forall k :: 0 <= k < |kept| ==> ' ' !in kept[k]) ==> Split(TranscriptText(t), ' ') == kept
  {
    var kept := KeptTexts(SegmentsOf(t));
    KeptTextsShape(SegmentsOf(t));
    JoinStripped(kept);
    if |kept| > 0 && (forall k :: 0 <= k < |kept| ==> ' ' !in kept[k]) {
      JoinThenSplit(' ', kept);
    }
  }

  // ---------------------------------------------------------------------------
  // save_transcript's file name

  predicate IsSafeChar(c: char) {
    IsAlnum(c) || c == ' ' || c == '_' || c == '-'
  }

  /** `safe_title`: every character that is not alphanumeric, a space, '_' or '-' becomes '_'. */
  function SafeTitle(title: string): (r: string)
    ensures |r| == |title|
    ensures forall k :: 0 <= k < |r| ==> IsSafeChar(r[k])
    ensures forall k :: 0 <= k < |r| ==> (r[k] == title[k] <==> IsSafeChar(title[k]))
    ensures forall k :: 0 <= k < |r| ==> !IsSafeChar(title[k]) ==> r[k] == '_'
  {
    seq(|title|, k requires 0 <= k < |title| => if IsSafeChar(title[k]) then title[k] else '_')
  }

  /** A sanitised title is left alone by a second sanitising. */
  lemma SafeTitleIdempotent(title: string)
    ensures SafeTitle(SafeTitle(title)) == SafeTitle(title)
  {
  }

  /** `metadata.get("title", "Unknown")` for a text title. */
  function TitleOf(t: TranscriptData): string {
    if t.metadata.Some? && "title" in t.metadata.value && t.metadata.value["title"].Str? then
      t.metadata.value["title"].s
    else "Unknown"
  }

  /** `uuid.uuid4().hex[:8]` of the given hex string. */
  function HexPrefix(hex: string): (r: string)
    ensures |r| <= 8 && |r| <= |hex| && r == hex[..|r|]
  {
    if |hex| <= 8 then hex else hex[..8]
  }

  predicate IsHexDigit(c: char) {
    IsDigit(c) || ('a' <= c <= 'f')
  }

  /** The path `save_transcript` writes, for a given uuid in hex. */
  function SavePath(dir: string, t: TranscriptData, hex: string): string {
    PathJoin(dir, SafeTitle(TitleOf(t)) + "_" + HexPrefix(hex) + ".json")
  }

  /** The saved name before its extension: no '/', no '.', and not only dots. */
  lemma SaveBaseChars(safe: string, h: string)
    requires forall k :: 0 <= k < |safe| ==> IsSafeChar(safe[k])
    requires forall k :: 0 <= k < |h| ==> IsHexDigit(h[k])
    ensures '/' !in safe + "_" + h + ".json"
    ensures '.' !in safe + "_" + h
    ensures !AllDots(safe + "_" + h)
  {
    var base := safe + "_" + h;
    assert forall k :: 0 <= k < |base| ==> base[k] != '/' && base[k] != '.' by {
      forall k | 0 <= k < |base|
        ensures base[k] != '/' && base[k] != '.'
      {
        if k < |safe| {
          assert base[k] == safe[k];
        } else if k > |safe| {
          assert base[k] == h[k - |safe| - 1];
        }
      }
    }
    var name := base + ".json";
    assert forall k :: 0 <= k < |name| ==> name[k] != '/' by {
      forall k | 0 <= k < |name|
        ensures name[k] != '/'
      {
        if k < |base| {
          assert name[k] == base[k];
        }
      }
    }
    assert base[|safe|] == '_';
  }

  /** The name a saved transcript is later filed under is its sanitised title
      and the uuid prefix: the directory and the ".json" extension drop away. */
  lemma SavedFileStem(dir: string, t: TranscriptData, hex: string)
    requires forall k :: 0 <= k < |hex| ==> IsHexDigit(hex[k])
    ensures FileStem(SavePath(dir, t, hex)) == SafeTitle(TitleOf(t)) + "_" + HexPrefix(hex)
  {
    var safe := SafeTitle(TitleOf(t));
    var h := HexPrefix(hex);
    var base := safe + "_" + h;
    assert forall k :: 0 <= k < |h| ==> IsHexDigit(h[k]);
    SaveBaseChars(safe, h);
    assert SavePath(dir, t, hex) == PathJoin(dir, base + ".json");
    BaseNameOfJoin(dir, base + ".json");
    StemOfExtension(base, ".json");
  }

  // ---------------------------------------------------------------------------
  // load_transcript's defaults

  /** `load_transcript` after the file is read: `metadata` is added when
      missing, and a missing `title` becomes the file name without extension. */
  method LoadTranscript(data: TranscriptData, path: string) returns (loaded: TranscriptData)
    ensures loaded.metadata.Some? && "title" in loaded.metadata.value
    ensures data.metadata.Some? && "title" in data.metadata.value ==> loaded == data
    ensures !(data.metadata.Some? && "title" in data.metadata.value) ==>
      loaded.metadata.value == data.metadata.GetOr(map[])["title" := Str(FileStem(path))]
    ensures loaded.transcript == data.transcript && loaded.segments == data.segments && loaded.words == data.words
  {
    loaded := data;
    if loaded.metadata.None? {
      loaded := loaded.(metadata := Some(map[]));
    }
    if "title" !in loaded.metadata.value {
      loaded := loaded.(metadata := Some(loaded.metadata.value["title" := Str(FileStem(path))]));
    }
  }
}
