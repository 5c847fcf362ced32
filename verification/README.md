# AI-VideoQnA core in Dafny

This project models the deterministic core of AI-VideoQnA, an assistant that
answers questions about a transcribed video. The core has two parts.

**The temporal query resolver** (`utils/timestamp_utils.py`):
- `parse_timestamp` reads `H:M:S`, `M:S` or bare-seconds text as seconds.
- `format_seconds_to_timestamp` writes seconds back as `HH:MM:SS[.mmm]`.
- `extract_time_range` reads a question like "from 5:30 to 10:45", "at the 2 minute mark" or "last 10 minutes" as a time interval. It tries a fixed, prioritised list of phrase rules.
- `find_segments_in_time_range`, `extract_text_from_segments` and `get_context_around_timestamp` select the overlapping transcript segments and join their text.

`AIHandler._prepare_context` uses this resolver to build the context sent to the language model. It sends either the whole transcript, cut at 12000 characters, or the text of the segments in the requested range. The message list and the request body are assembled around that context.

**The in-memory logic of the file-backed managers**:
- the transcript manager rebuilds a transcript's text, sanitises titles into file names and fills in defaults on load;
- the notes manager adds, updates, deletes and searches notes per transcript;
- the history manager records, searches and clears question/answer history;
- the transcriber turns a speech recogniser's result into the stored transcript record, with its own millisecond timestamp formatter.

Modules, one per file:

| module | file | models |
|---|---|---|
| `Common` | common.dfy | `Option` (Python's `None`), `Result` (the `ValueError` of `int()`/`float()`) |
| `Text` | text.dfy | `str.lower`, `strip`, `split`, `join`, `count`, the `in` substring test, digit strings |
| `Seqs` | seqs.dfy | order-preserving filtering (list comprehensions and appending loops), subsequences |
| `Paths` | paths.dfy | `os.path.basename`, `splitext`, `join` |
| `Timestamp` | timestamp.dfy | `parse_timestamp`, `format_seconds_to_timestamp`, `int()`/`float()` on the strings they meet |
| `Patterns` | patterns.dfy | the five regular expressions of `extract_time_range`, as recognisers plus a leftmost search |
| `TimeRanges` | time_range.dfy | `extract_time_range`: a specification function and the looping method |
| `Transcripts` | transcripts.dfy | the transcript record (metadata, transcript, segments, words) |
| `Segments` | segments.dfy | `find_segments_in_time_range`, `extract_text_from_segments`, `get_context_around_timestamp` |
| `AiHandler` | ai_handler.dfy | `_prepare_context` and the message/payload assembly of `process_any_request` |
| `TranscriptManager` | transcript_manager.dfy | `get_transcript_text`, the `safe_title` file name, `load_transcript`'s defaults |
| `Notes` | notes.dfy | `NotesManager` over a map from transcript id to its notes file |
| `History` | history.dfy | `HistoryManager` over a map from transcript id to its history file |
| `Transcriber` | transcriber.dfy | `_process_transcript` and `_format_timestamp` |
| `TimestampExamples`, `TimeRangeExamples` | timestamp_examples.dfy, time_range_examples.dfy | worked inputs: "5:30", "at the 2 minute mark", "LAST 10 MINUTES", ... |

Modelling choices:
- Times are real numbers, not IEEE doubles.
- Python's `timedelta(seconds=x)` rounds x to a whole number of microseconds u, half to even; then `td.seconds = (u div 10^6) mod 86400` and `td.microseconds = u mod 10^6`.
- Each regular expression becomes a recogniser at one position plus a leftmost search, which is what `re.search` computes for these patterns. Each greedy piece of these patterns is followed by a piece that cannot start with the characters it consumes, so the match at a position is unique. `re.IGNORECASE` becomes matching on the lower-cased query.
- A JSON object becomes a datatype with one `Option` field per key.
- A manager's directory of JSON files becomes a class field: a map from transcript id (the file's name without its extension) to the file's contents.
- `datetime.now()` becomes a `now` parameter.

Where the code and its documentation disagree, the model follows the code:
- "at the 2 minute mark" reads `2` as seconds, giving (-28, 32).
- The millisecond field of `format_seconds_to_timestamp` is always `000`.
- A time token ending in a colon, as in "from 5: to 6", makes `int()`/`float()` raise `ValueError` inside `extract_time_range`. The documentation says it never raises. The model returns `Err(ValueError)`, as `TimeRangeExamples.TrailingColonExample` shows.
- "last N minutes" gives a range with no end, so `_prepare_context` falls back to the full transcript.

## Model

| member | source | states |
|---|---|---|
| Timestamp.ParseTimestamp | utils/timestamp_utils.py:16-26 | text without colons reads as `float(s)`, or 0.0 when `float()` rejects it; text with three or more colons reads as 0.0; neither raises |
| Timestamp.ParseClockRaises | utils/timestamp_utils.py:16-21 | with one or two colons, the call raises exactly when `int()` rejects the hours or minutes or `float()` rejects the seconds |
| Timestamp.ParseBareDigits | utils/timestamp_utils.py:22-24 | a bare digit string reads as its value |
| Timestamp.ParseClockShaped | utils/timestamp_utils.py:16-18 | two colons with digit fields h, m and a float field s read as h*3600 + m*60 + s |
| Timestamp.ParseMinutesShaped | utils/timestamp_utils.py:19-21 | one colon with a digit field m and a float field s reads as m*60 + s |
| Timestamp.ParseFloatRejectsColon | utils/timestamp_utils.py:18-26 | `float()` raises on any text containing a colon |
| Timestamp.ParseFloatDecimal | utils/timestamp_utils.py:18-24 | `float("a.f")` is a plus the fraction f |
| Timestamp.ClockOfThreeFields | utils/timestamp_utils.py:17-18 | three fields that convert give h*3600 + m*60 + s |
| Timestamp.ClockOfTwoFields | utils/timestamp_utils.py:20-21 | two fields that convert give m*60 + s |
| Timestamp.RoundHalfEven | utils/timestamp_utils.py:42 | the nearest integer, a tie going to the even one |
| Timestamp.DaySeconds | utils/timestamp_utils.py:42-43 | `td.seconds` is below 86400 |
| Timestamp.DaySecondsOfTime | utils/timestamp_utils.py:42-43 | `td.seconds` is floor(x) mod 86400, or floor(x) + 1 mod 86400 once the fraction of x is at least 0.9999995 |
| Timestamp.OverflowBounds | utils/timestamp_utils.py:42 | times from -999999999 days up to one second short of 10^9 days are accepted by `timedelta`; a second or more beyond either end raises OverflowError |
| Timestamp.DaySecondsOfWhole | utils/timestamp_utils.py:42-43 | a whole number of seconds k gives k mod 86400 |
| Timestamp.DaySecondsWithinDay | utils/timestamp_utils.py:42-43 | within the first day, a time whose fraction is below 0.9999995 has `td.seconds` = floor(x) |
| Timestamp.SecondsField | utils/timestamp_utils.py:47-50 | the seconds field is two digits, followed by ".000" when milliseconds are included |
| Timestamp.ClockText | utils/timestamp_utils.py:43-50 | the text has 12 characters with milliseconds and 8 without, with colons at positions 2 and 5 |
| Timestamp.FormatSecondsToTimestamp | utils/timestamp_utils.py:39-50 | None gives "00:00:00"; otherwise `HH:MM:SS` plus ".mmm" only with include_ms |
| Timestamp.FormatMillisecondsZero | utils/timestamp_utils.py:44-48 | the millisecond field is always "000" |
| Timestamp.ClockFields | utils/timestamp_utils.py:43-44 | the two divmods give hours below 24 and recombine to the time of day |
| Timestamp.ClockTextThenParse | utils/timestamp_utils.py:16-50 | a formatted time of day parses back to itself |
| Timestamp.FormatThenParse | utils/timestamp_utils.py:16-50 | parsing a formatted time gives `td.seconds`: floor(x) mod 86400, or the next second mod 86400 when the fraction rounds up into it |
| Timestamp.FormatThenParseWholeSeconds | utils/timestamp_utils.py:16-50 | for whole x with 0 <= x < 86400, parsing the formatted x gives x back |
| Timestamp.FormatRoundsToSecond | utils/timestamp_utils.py:42-48 | the text depends only on the second x rounds to: a fraction below 0.9999995 is dropped, a larger one carries into the next second |
| TimestampExamples.ParseMinutesSecondsExample | utils/timestamp_utils.py:19-21 | "5:30" reads as 330 |
| TimestampExamples.ParseHoursExample | utils/timestamp_utils.py:16-18 | "1:20:15" reads as 4815 |
| TimestampExamples.ParseBareExample | utils/timestamp_utils.py:22-24 | "95" reads as 95 |
| TimestampExamples.ParseTextExample | utils/timestamp_utils.py:22-26 | "noon" reads as 0.0 |
| TimestampExamples.ParseTrailingColonExample | utils/timestamp_utils.py:19-21 | "5:" raises ValueError, because `float("")` raises |
| TimestampExamples.FormatCarryExample | utils/timestamp_utils.py:42-48 | 59.9999996 rounds up and formats as "00:01:00.000" |
| TimestampExamples.FormatDayWrapExample | utils/timestamp_utils.py:42-48 | 86399.9999996 rounds up into the next day and formats as "00:00:00.000" |
| TimestampExamples.FormatNegativeExample | utils/timestamp_utils.py:42-48 | -30 formats as "23:59:30.000" |
| TimestampExamples.LastMinuteOfDay | utils/timestamp_utils.py:43-48 | second 86370 of the day formats as "23:59:30.000" |
| TimestampExamples.FormatMinutesExample | utils/timestamp_utils.py:49-50 | 330 without milliseconds formats as "00:05:30" |
| Patterns.Keyword | utils/timestamp_utils.py:64-87 | a literal word matches case-insensitively and consumes exactly its length |
| Patterns.SearchFromLeftmost | utils/timestamp_utils.py:70-88 | the search returns the leftmost position where the pattern matches, or None when it matches nowhere |
| Patterns.TokenIsTimeToken | utils/timestamp_utils.py:64-78 | a time group is digits with at most two colons, starting with a digit, and is maximal |
| Patterns.DigitsEndScan | utils/timestamp_utils.py:87 | `\d+` consumes the maximal run of digits |
| Patterns.MatchGroups | utils/timestamp_utils.py:64-87 | the groups of each pattern have the shape the pattern promises |
| Patterns.GroupsFromQuery | utils/timestamp_utils.py:72-90 | every character of a group comes from the query |
| Patterns.NoMatchWithoutNeeded | utils/timestamp_utils.py:64-87 | a query lacking a letter or symbol that a pattern requires does not match that pattern |
| Patterns.MatchAtIgnoresCase | utils/timestamp_utils.py:70-88 | matching the lower-cased query gives the lower-cased groups at the same position |
| Patterns.SearchFromIgnoresCase | utils/timestamp_utils.py:70-88 | the search of the lower-cased query finds the same position, with lower-cased groups |
| TimeRanges.FirstMatch | utils/timestamp_utils.py:63-100 | the first rule in priority order whose pattern occurs in the query, and no earlier rule's pattern occurs |
| TimeRanges.ExtractTimeRange | utils/timestamp_utils.py:52-100 | the loop over the range patterns, then the mark and first/last rules, returns exactly the specified range |
| TimeRanges.RuleDecides | utils/timestamp_utils.py:69-98 | when rule k is the first to match, the range is the one that rule computes from its groups |
| TimeRanges.NoRuleDecides | utils/timestamp_utils.py:100 | when no rule matches, the range is (None, None) |
| TimeRanges.RangeRule | utils/timestamp_utils.py:69-75 | the first matching range pattern gives (parse(A), parse(B)) |
| TimeRanges.MarkRule | utils/timestamp_utils.py:78-81 | when no range pattern matches and the mark pattern does, the mark rule decides |
| TimeRanges.MarkRange | utils/timestamp_utils.py:81-84 | the mark rule gives (p - 30, p + 30) for p the parsed time |
| TimeRanges.FirstLastRule | utils/timestamp_utils.py:87-90 | when only the first/last pattern matches, it decides, with "first" or "last" and a digit count |
| TimeRanges.FirstLastRange | utils/timestamp_utils.py:90-98 | "first N minutes" gives (0, 60N); "last N minutes" gives (-60N, None) |
| TimeRanges.MatchFits | utils/timestamp_utils.py:72-90 | the groups found by each pattern fit its rule |
| TimeRanges.RangeHasStart | utils/timestamp_utils.py:75-98 | every rule that succeeds gives a start |
| TimeRanges.NoRangeIffNoPattern | utils/timestamp_utils.py:63-100 | the range is (None, None) exactly when no pattern occurs in the query |
| TimeRanges.MissingBounds | utils/timestamp_utils.py:94-100 | a missing start implies a missing end; a start without an end comes only from "last N minutes" and is at most 0 |
| TimeRanges.MarkWindowWidth | utils/timestamp_utils.py:84 | the mark window is always 60 seconds wide, unclamped |
| TimeRanges.ColonFreeQueryParses | utils/timestamp_utils.py:73-82 | a query without colons never makes the resolver raise |
| TimeRanges.LowerKeepsDigitsAndColons | utils/timestamp_utils.py:70-74 | lower-casing leaves time tokens unchanged |
| TimeRanges.FirstMatchIgnoresCase | utils/timestamp_utils.py:70-88 | the deciding rule does not depend on the query's case |
| TimeRanges.RangeIgnoresCase | utils/timestamp_utils.py:73-93 | each rule's range does not depend on the case of its groups |
| TimeRanges.TimeRangeIgnoresCase | utils/timestamp_utils.py:70-93 | the whole range does not depend on the query's case |
| TimeRangeExamples.MarkExample | utils/timestamp_utils.py:78-84 | "at the 2 minute mark" gives (-28, 32) |
| TimeRangeExamples.FromToExample | utils/timestamp_utils.py:64-75 | "from 5:30 to 10:45" gives (330, 645) |
| TimeRangeExamples.PriorityExample | utils/timestamp_utils.py:63-84 | "from 1 to 2 at the 3 minute mark" also matches the later mark pattern, yet the range rule decides: (1, 2) |
| TimeRangeExamples.TrailingColonExample | utils/timestamp_utils.py:73-74 | a time token ending in a colon makes the resolver raise ValueError |
| TimeRangeExamples.FirstExample | utils/timestamp_utils.py:87-94 | "first 5 minutes" gives (0, 300) |
| TimeRangeExamples.LastExample | utils/timestamp_utils.py:87-98 | "LAST 10 MINUTES" gives (-600, None) |
| TimeRangeExamples.PlainExample | utils/timestamp_utils.py:100 | a query with no time phrase gives (None, None) |
| Segments.FindSegmentsInTimeRange | utils/timestamp_utils.py:114-124 | the appending loop returns exactly the overlapping segments, in order |
| Segments.InRangeMeaning | utils/timestamp_utils.py:116-122 | a segment is kept exactly when it overlaps inclusively, missing times read as 0, each as often as it occurs, in input order |
| Segments.InRangeWiden | utils/timestamp_utils.py:121 | a wider range keeps everything a narrower one keeps, in the same order |
| Segments.Texts | utils/timestamp_utils.py:136 | one text per segment |
| Segments.ExtractTextParts | utils/timestamp_utils.py:136 | no segments give ""; otherwise the texts joined by single spaces, which split back into the texts when they hold no space |
| Segments.WindowStart | utils/timestamp_utils.py:150 | the lower bound is max(0, timestamp - window) |
| Segments.ContextHasCoveringSegment | utils/timestamp_utils.py:150-154 | for a timestamp and a window that are both at least 0, a segment that spans the timestamp is in the context |
| Segments.ClampHarmless | utils/timestamp_utils.py:150-153 | when no segment ends before 0, clamping the lower bound changes nothing |
| AiHandler.TruncateContext | src/ai_handler.py:139-140 | text of at most 12000 characters is unchanged; longer text keeps its first 12000 characters and gains the marker |
| AiHandler.TruncateIdempotent | src/ai_handler.py:139-140 | truncating a truncated context changes nothing |
| AiHandler.PrepareContextCases | src/ai_handler.py:135-150 | a missing bound gives the full transcript ("" if absent), truncated; two bounds give the joined text of the overlapping segments, untruncated |
| AiHandler.NoTimePhraseUsesFullTranscript | src/ai_handler.py:135-142 | a request without a time phrase gets the full transcript |
| AiHandler.LastMinutesUsesFullTranscript | src/ai_handler.py:135-142 | a "last N minutes" request falls back to the full transcript |
| AiHandler.UserContent | src/ai_handler.py:83 | the user message is the header, the context, the request header and the request, in that order |
| AiHandler.BuildMessages | src/ai_handler.py:81-84 | one system message with the prompt, then one user message |
| AiHandler.UserContentDecodes | src/ai_handler.py:83 | given the context's length, the user message determines the context and the request |
| AiHandler.BuildPayload | src/ai_handler.py:87-104 | model, messages and `stream: False`; `options` exactly when the GPU is used, and then {num_gpu: 1, num_thread: 4} |
| AiHandler.RequestPayloadMeaning | src/ai_handler.py:72-104 | the body exists exactly when the time range reads without error, and carries that request's context |
| TranscriptManager.StrippedTexts | src/transcript_manager.py:142 | one stripped text per segment |
| TranscriptManager.GetTranscriptText | src/transcript_manager.py:132-146 | the accumulating loop returns the `transcript` value, or the kept segment texts joined by single spaces |
| TranscriptManager.TranscriptTextFromSegments | src/transcript_manager.py:136-146 | without `transcript`, the text is stripped, empty exactly when no segment has non-blank text, and splits back into the kept texts |
| TranscriptManager.KeptTextsShape | src/transcript_manager.py:142-144 | the kept texts are non-empty and stripped |
| TranscriptManager.SafeTitle | src/transcript_manager.py:44 | same length as the title; each character kept exactly when it is alphanumeric, a space, '_' or '-', and '_' otherwise |
| TranscriptManager.SafeTitleIdempotent | src/transcript_manager.py:44 | sanitising a sanitised title changes nothing |
| TranscriptManager.HexPrefix | src/transcript_manager.py:45 | the uuid part is a prefix of at most 8 characters |
| TranscriptManager.SavedFileStem | src/transcript_manager.py:44-46 | the saved file's id is the sanitised title, '_' and the uuid prefix |
| TranscriptManager.LoadTranscript | src/transcript_manager.py:69-75 | metadata always has a title afterwards; an existing title leaves everything unchanged; a missing one becomes the file name without its extension |
| Transcriber.TdMicroseconds | src/transcriber.py:157-162 | `td.microseconds` is below 10^6 |
| Transcriber.FormatTimestamp | src/transcriber.py:153-164 | None gives "00:00:00"; otherwise 12 characters `HH:MM:SS.mmm` |
| Transcriber.MillisecondClock | src/transcriber.py:158-164 | the formatted clock with milliseconds has its separators in place |
| Transcriber.SameClockAsUtils | src/transcriber.py:157-164 | the first 8 characters agree with the utils formatter without milliseconds |
| Transcriber.WholeMilliseconds | src/transcriber.py:157 | every time within the day in whole milliseconds is n / 1000 for a count n below 86400000 |
| Transcriber.MillisecondsFields | src/transcriber.py:157-162 | the time of n milliseconds has n / 1000 whole seconds and n % 1000 milliseconds |
| Transcriber.MillisecondFieldThenParse | src/transcriber.py:162-164 | the seconds field with milliseconds reads back as seconds plus milliseconds / 1000 |
| Transcriber.ClockWithMillisecondsThenParse | src/transcriber.py:158-164 | a clock with milliseconds parses back to its exact time |
| Transcriber.FormatTimestampThenParse | src/transcriber.py:153-164 | the time of n milliseconds within the day formats and parses back to itself, milliseconds kept |
| Transcriber.FormatSegmentKeepsSource | src/transcriber.py:118-127 | each output segment copies id, start, end and text, and its formatted times are those of start and end |
| Transcriber.FormatWordKeepsSource | src/transcriber.py:130-139 | each output word copies word, start and end, and its formatted times are those of start and end |
| Transcriber.TranscriptionMetadata | src/transcriber.py:104-115 | metadata keeps its keys and gains the `transcription` record of model, language and device |
| Transcriber.ProcessTranscript | src/transcriber.py:103-141 | one output segment per input segment and one word per input word, in order; `transcript` is the text or "" |
| Notes.AddNoteAppends | src/notes_manager.py:60-75 | one note at the end, earlier notes unchanged; id = length + 1; tags default to []; a formatted time exactly when one is given, and it parses back to that time of day |
| Notes.AddKeepsNumbering | src/notes_manager.py:67-75 | adds alone keep the notes numbered 1, 2, ... in order |
| Notes.FirstIndexOf | src/notes_manager.py:187-188 | the first note with the id, or None exactly when no note has it |
| Notes.FirstIndexAt | src/notes_manager.py:187-188 | a note with the id preceded only by other ids is the first match |
| Notes.FindNote | src/notes_manager.py:240-241 | the scan stops at the first note whose id matches |
| Notes.UpdateNotesChangesFirstMatch | src/notes_manager.py:187-207 | fails exactly when no id matches; otherwise only the first match changes: text and tags only where given, `updated_at` always, ids kept |
| Notes.DeleteNotesRemovesFirstMatch | src/notes_manager.py:240-252 | fails exactly when no id matches; otherwise removes exactly the first match and keeps the rest in order |
| Notes.DeleteThenAddRepeatsId | src/notes_manager.py:240-243 | deleting any note but the last from notes numbered 1..n and then adding gives the new note the last note's id |
| Notes.SearchNotesSelects | src/notes_manager.py:128-156 | keeps exactly the notes that pass each given filter, each as often as it occurs and in order; no term and no tag give all notes |
| Notes.SearchBothNarrowsTerm | src/notes_manager.py:131-146 | a term and a tag together keep a subsequence of what the term alone keeps |
| Notes.SearchIgnoresCase | src/notes_manager.py:133-150 | the case of the term and the tag does not change the result |
| Notes.NotesManager.constructor | src/notes_manager.py:18-26 | a manager works on the notes files already in its directory, each filed under its transcript id |
| Notes.NotesManager.GetNotes | src/notes_manager.py:99-110 | the transcript's notes, or [] when it has no notes file |
| Notes.NotesManager.AddNote | src/notes_manager.py:41-85 | false with nothing stored exactly when formatting the given time overflows; otherwise the transcript's file, created empty when missing, gains the new note at the end; no other file changes |
| Notes.NotesManager.UpdateNote | src/notes_manager.py:176-207 | false and no change without a file or a matching id; otherwise the first match is revised in place |
| Notes.NotesManager.DeleteNote | src/notes_manager.py:229-252 | false and no change without a file or a matching id; otherwise the first match is removed |
| History.SearchHistorySelects | src/history_manager.py:117-127 | keeps exactly the entries whose lower-cased question or answer contains the lower-cased term, each as often as it occurs and in order; "" keeps every entry |
| History.SearchAfterAdd | src/history_manager.py:121-125 | after an add, the search finds what it found before, then the new entry if it matches |
| History.SearchIgnoresCase | src/history_manager.py:118 | the case of the term does not change the result |
| History.HistoryManager.constructor | src/history_manager.py:18-26 | a manager works on the history files already in its directory, each filed under its transcript id |
| History.HistoryManager.GetHistory | src/history_manager.py:89-100 | the transcript's entries, or [] when it has no history file |
| History.HistoryManager.AddToHistory | src/history_manager.py:42-71 | the transcript's file, created empty when missing, gains one {timestamp, question, answer} entry at the end; no other file changes |
| History.HistoryManager.ClearHistory | src/history_manager.py:141-151 | true exactly when the history existed; afterwards the history is [] and no other file changes |

## Left out

- File and directory I/O, JSON encoding, `os.makedirs`, and the `print` calls in every manager. A manager's files are a map held in the object.
- The `except Exception: return False` / `return []` / `return None` paths of the managers, where they catch I/O or decoding failures, which the in-memory map cannot have. The one other exception such a block catches, the OverflowError of formatting the time in `add_note`, is modelled: `Notes.NotesManager.AddNote` then returns false and stores nothing.
- The HTTP call to the language-model server and the handling of its response (src/ai_handler.py:106-120). The model stops at the request body.
- `_create_flexible_system_prompt` is not part of this model. The system prompt is a parameter.
- Whisper model loading and transcription, and the `print`s of `_process_transcript`. The recogniser's result is an input.
- `datetime.now()` is the `now` parameter, and `uuid.uuid4().hex` is the `hex` parameter.
- `list_transcripts`, `display_transcript_info` and the directory listing with modification-time sorting are not part of this model.
- `str.lower`, `str.isalnum`, `\d` and `re.IGNORECASE` are modelled for ASCII only. `\s` and `str.strip` use Python's full whitespace set.
- `int()` and `float()` are modelled for an optional sign, ASCII digits and (for `float()`) one decimal point, with surrounding whitespace stripped. Underscores, exponents, "inf"/"nan" and non-ASCII digits are treated as malformed.
- Timestamp.ParseTimestamp: the contract gives the value for no colon and for three or more; for one or two colons ParseClockRaises says when the call raises, and ParseClockShaped and ParseMinutesShaped give the value for digit-string hours and minutes only (signed or space-padded fields are not characterised).
- Timestamp.Microseconds: times are exact reals, so `x * 10^6` is exact before it is rounded to the microsecond; Python first rounds that product to a double.
- Timestamp.FormatSecondsToTimestamp: `timedelta` raises OverflowError for the times `Timestamp.TimedeltaOverflows` names (beyond 999999999 days); the formatter itself formats every real, and its callers check the predicate where the source catches the error.
- Transcriber.FormatTimestamp: the same OverflowError beyond 999999999 days is not modelled; every real formats.
- IEEE double arithmetic: all times are exact reals.
- `os.path` is modelled as POSIX paths: only '/' separates directories. On Windows `ntpath` also splits at '\\', which `Paths.BaseName` does not.
- A JSON key that is missing and one that holds `null` are both `None`, so `segment.get("text", "")` on an explicit `null` reads as "" here, where Python would fail.
- A note or entry missing its `text`, `tags`, `question` or `answer` key is not modelled: every stored note and entry is one written by the manager itself.
- A metadata `title` that is not a string is read as "Unknown" by `TranscriptManager.TitleOf`.
- `_process_transcript` writes `transcription` into the caller's metadata dictionary in place. The model returns new metadata and does not capture that aliasing.
