/** src/notes_manager.py: per-transcript notes, each file holding the notes of
    one transcript in the order they were added. The notes directory is a map
    from transcript id (the transcript file's name without its extension) to
    the contents of `<id>_notes.json`. */
module Notes {
  import opened Common
  import opened Text
  import opened Seqs
  import opened Paths
  import opened Timestamp

  /** One note as `add_note` writes it; `updatedAt` is set by `update_note`. */
  datatype Note = Note(
    id: int,
    createdAt: string,
    text: string,
    timestampSeconds: Option<real>,
    timestampStr: Option<string>,
    tags: seq<string>,
    updatedAt: Option<string>)

  /** The contents of one `<id>_notes.json`. */
  datatype NotesFile = NotesFile(transcriptId: string, transcriptPath: string, notes: seq<Note>)

  // ---------------------------------------------------------------------------
  // add_note

  /** The note `add_note` builds: the time is formatted only when one is given,
      and `tags or []` turns a missing tag list into an empty one. */
  function NewNote(id: int, now: string, text: string, seconds: Option<real>, tags: Option<seq<string>>): Note {
    var timestampStr := if seconds.Some? then Some(FormatSecondsToTimestamp(seconds, true)) else None;
    Note(id, now, text, seconds, timestampStr, tags.GetOr([]), None)
  }

  /** The note list after `add_note`: one new note at the end, numbered one past the current length. */
  function WithNote(notes: seq<Note>, now: string, text: string, seconds: Option<real>, tags: Option<seq<string>>): seq<Note> {
    notes + [NewNote(|notes| + 1, now, text, seconds, tags)]
  }

  /** Adding keeps every earlier note, and the new note carries the given text,
      time, tags and creation time, the next number as its id, and a
      formatted time exactly when a time was given, one that reads back as
      that time of day. */
  lemma AddNoteAppends(notes: seq<Note>, now: string, text: string, seconds: Option<real>, tags: Option<seq<string>>)
    ensures var r := WithNote(notes, now, text, seconds, tags);
      |r| == |notes| + 1 && r[..|notes|] == notes
    ensures var n := WithNote(notes, now, text, seconds, tags)[|notes|];
      n.id == |notes| + 1 && n.createdAt == now && n.text == text && n.timestampSeconds == seconds
      && n.updatedAt.None? && (n.timestampStr.Some? <==> seconds.Some?)
      && (tags.Some? ==> n.tags == tags.value) && (tags.None? ==> n.tags == [])
    ensures var n := WithNote(notes, now, text, seconds, tags)[|notes|];
      seconds.Some? ==> ParseTimestamp(n.timestampStr.value) == Ok(DaySeconds(seconds.value) as real)
  {
    if seconds.Some? {
      FormatThenParse(seconds.value, true);
    }
  }

  /** Notes numbered 1, 2, ... in order: what a file holds after adds alone. */
  predicate NumberedInOrder(notes: seq<Note>) {
    forall k :: 0 <= k < |notes| ==> notes[k].id == k + 1
  }

  /** Adding keeps the notes numbered in order. */
  lemma AddKeepsNumbering(notes: seq<Note>, now: string, text: string, seconds: Option<real>, tags: Option<seq<string>>)
    requires NumberedInOrder(notes)
    ensures NumberedInOrder(WithNote(notes, now, text, seconds, tags))
  {
    var r := WithNote(notes, now, text, seconds, tags);
    forall k | 0 <= k < |r|
      ensures r[k].id == k + 1
    {
      if k < |notes| {
        assert r[k] == notes[k];
      }
    }
  }

  // ---------------------------------------------------------------------------
  // Finding a note by id

  /** The position of the first note with the given id, if any. */
  function FirstIndexOf(notes: seq<Note>, id: int): (r: Option<nat>)
    ensures r.None? <==> forall j :: 0 <= j < |notes| ==> notes[j].id != id
    ensures r.Some? ==> r.value < |notes| && notes[r.value].id == id
    ensures r.Some? ==> forall j :: 0 <= j < r.value ==> notes[j].id != id
  {
    if |notes| == 0 then None
    else if notes[0].id == id then Some(0)
    else match FirstIndexOf(notes[1..], id)
      case None => None
      case Some(i) => Some(i + 1)
  }

  /** A note with the id, preceded only by notes with other ids, is the first one. */
  lemma FirstIndexAt(notes: seq<Note>, id: int, i: nat)
    requires i < |notes| && notes[i].id == id
    requires forall j :: 0 <= j < i ==> notes[j].id != id
    ensures FirstIndexOf(notes, id) == Some(i)
  {
    var r := FirstIndexOf(notes, id);
    assert r.Some?;
  }

  /** The scan `update_note` and `delete_note` make over a file's notes,
      stopping at the first note whose id matches. */
  method FindNote(notes: seq<Note>, noteId: int) returns (found: Option<nat>)
    ensures found == FirstIndexOf(notes, noteId)
  {
    for i := 0 to |notes|
      invariant forall j :: 0 <= j < i ==> notes[j].id != noteId
    {
      if notes[i].id == noteId {
        FirstIndexAt(notes, noteId, i);
        return Some(i);
      }
    }
    return None;
  }

  // ---------------------------------------------------------------------------
  // update_note

  /** The note after an update: text and tags replaced only when given, and `updated_at` set. */
  function Revised(n: Note, text: Option<string>, tags: Option<seq<string>>, now: string): Note {
    n.(text := text.GetOr(n.text), tags := tags.GetOr(n.tags), updatedAt := Some(now))
  }

  /** The note list after `update_note`, or None when no note has the id. */
  function UpdateNotes(notes: seq<Note>, id: int, text: Option<string>, tags: Option<seq<string>>, now: string): Option<seq<Note>> {
    match FirstIndexOf(notes, id)
    case None => None
    case Some(i) => Some(notes[i := Revised(notes[i], text, tags, now)])
  }

  /** An update fails exactly when no note has the id. Otherwise it changes the
      first note with that id and no other: its text and tags only where new
      ones were passed, its `updated_at` always, and nothing else of it. */
  lemma UpdateNotesChangesFirstMatch(notes: seq<Note>, id: int, text: Option<string>, tags: Option<seq<string>>, now: string)
    ensures UpdateNotes(notes, id, text, tags, now).None? <==> forall j :: 0 <= j < |notes| ==> notes[j].id != id
    ensures var r := UpdateNotes(notes, id, text, tags, now);
      r.Some? ==> |r.value| == |notes| && forall j :: 0 <= j < |notes| ==> r.value[j].id == notes[j].id
    ensures var r := UpdateNotes(notes, id, text, tags, now);
      r.Some? ==> exists i :: (0 <= i < |notes| && notes[i].id == id && (forall j :: 0 <= j < i ==> notes[j].id != id)
        && (forall j :: 0 <= j < |notes| && j != i ==> r.value[j] == notes[j])
        && r.value[i].createdAt == notes[i].createdAt
        && r.value[i].timestampSeconds == notes[i].timestampSeconds
        && r.value[i].timestampStr == notes[i].timestampStr
        && r.value[i].text == (if text.Some? then text.value else notes[i].text)
        && r.value[i].tags == (if tags.Some? then tags.value else notes[i].tags)
        && r.value[i].updatedAt == Some(now))
  {
    var f := FirstIndexOf(notes, id);
    if f.Some? {
      var i := f.value;
      var r := UpdateNotes(notes, id, text, tags, now).value;
      assert r == notes[i := Revised(notes[i], text, tags, now)];
      assert notes[i].id == id && (forall j :: 0 <= j < i ==> notes[j].id != id);
      assert forall j :: 0 <= j < |notes| && j != i ==> r[j] == notes[j];
    }
  }

  // ---------------------------------------------------------------------------
  // delete_note

  /** The note list after `delete_note`, or None when no note has the id. */
  function DeleteNotes(notes: seq<Note>, id: int): Option<seq<Note>> {
    match FirstIndexOf(notes, id)
    case None => None
    case Some(i) => Some(notes[..i] + notes[i + 1..])
  }

  /** A delete fails exactly when no note has the id. Otherwise it removes one
      note, the first with that id, and keeps all others in their order. */
  lemma DeleteNotesRemovesFirstMatch(notes: seq<Note>, id: int)
    ensures DeleteNotes(notes, id).None? <==> forall j :: 0 <= j < |notes| ==> notes[j].id != id
    ensures var r := DeleteNotes(notes, id);
      r.Some? ==> |r.value| == |notes| - 1
    ensures var r := DeleteNotes(notes, id);
      r.Some? ==> exists i :: (0 <= i < |notes| && notes[i].id == id && (forall j :: 0 <= j < i ==> notes[j].id != id)
        && r.value == notes[..i] + notes[i + 1..]
        && multiset(r.value) + multiset{notes[i]} == multiset(notes))
  {
    var f := FirstIndexOf(notes, id);
    if f.Some? {
      var i := f.value;
      var r := notes[..i] + notes[i + 1..];
      assert DeleteNotes(notes, id) == Some(r);
      assert notes == notes[..i] + [notes[i]] + notes[i + 1..];
      assert multiset(notes) == multiset(notes[..i]) + multiset{notes[i]} + multiset(notes[i + 1..]);
    }
  }

  /** Ids are not renumbered on delete while an add takes its id from the
      length, so deleting any note but the last from a file numbered 1..n and
      then adding one gives the new note the id of the last note. */
  lemma DeleteThenAddRepeatsId(notes: seq<Note>, id: int, now: string, text: string, seconds: Option<real>, tags: Option<seq<string>>)
    requires NumberedInOrder(notes)
    requires 1 <= id < |notes|
    ensures DeleteNotes(notes, id).Some?
    ensures var after := WithNote(DeleteNotes(notes, id).value, now, text, seconds, tags);
      |after| == |notes| && after[|after| - 2].id == after[|after| - 1].id == |notes|
  {
    FirstIndexAt(notes, id, id - 1);
    var r := DeleteNotes(notes, id).value;
    assert r == notes[..id - 1] + notes[id..];
    assert r[|r| - 1] == notes[|notes| - 1];
  }

  // ---------------------------------------------------------------------------
  // search_notes

  /** Python truthiness of an optional string: present and not empty. */
  predicate Truthy(s: Option<string>) {
    s.Some? && |s.value| > 0
  }

  /** The text filter: the lower-cased term occurs in the lower-cased text. */
  predicate TextMatches(n: Note, term: string) {
    Contains(Lower(n.text), Lower(term))
  }

  /** The tag filter: some tag equals the tag once both are lower-cased. */
  predicate HasTag(n: Note, tag: string) {
    exists k :: 0 <= k < |n.tags| && Lower(n.tags[k]) == Lower(tag)
  }

  /** The filter `search_notes` applies when a term or a tag is given: both
      tests when both are, otherwise the one that is. */
  function SearchTest(term: Option<string>, tag: Option<string>): Note -> bool {
    if Truthy(term) && Truthy(tag) then
      var t, g := term.value, tag.value;
      (n: Note) => TextMatches(n, t) && HasTag(n, g)
    else if Truthy(term) then
      var t := term.value;
      (n: Note) => TextMatches(n, t)
    else
      var g := tag.GetOr("");
      (n: Note) => HasTag(n, g)
  }

  /** `search_notes` on the notes `get_notes` returned: with no term and no tag, all of them. */
  function SearchNotes(notes: seq<Note>, term: Option<string>, tag: Option<string>): seq<Note> {
    if Truthy(term) || Truthy(tag) then Filter(notes, SearchTest(term, tag)) else notes
  }

  /** What a search asks of a note: each filter that was given holds. */
  predicate Wanted(n: Note, term: Option<string>, tag: Option<string>) {
    (Truthy(term) ==> TextMatches(n, term.value)) && (Truthy(tag) ==> HasTag(n, tag.value))
  }

  /** A search keeps exactly the wanted notes, each as often as it occurs and
      in their order, and with no term and no tag it keeps them all. */
  lemma SearchNotesSelects(notes: seq<Note>, term: Option<string>, tag: Option<string>)
    ensures forall n :: n in SearchNotes(notes, term, tag) <==> n in notes && Wanted(n, term, tag)
    ensures forall n :: multiset(SearchNotes(notes, term, tag))[n] == if Wanted(n, term, tag) then multiset(notes)[n] else 0
    ensures IsSubsequence(SearchNotes(notes, term, tag), notes)
    ensures !Truthy(term) && !Truthy(tag) ==> SearchNotes(notes, term, tag) == notes
  {
    var wanted := (n: Note) => Wanted(n, term, tag);
    if Truthy(term) || Truthy(tag) {
      FilterSame(notes, SearchTest(term, tag), wanted);
    } else {
      FilterKeepsAll(notes, wanted);
    }
    FilterSpec(notes, wanted);
  }

  /** Giving both a term and a tag narrows the search by the term alone. */
  lemma SearchBothNarrowsTerm(notes: seq<Note>, term: string, tag: string)
    requires |term| > 0 && |tag| > 0
    ensures IsSubsequence(SearchNotes(notes, Some(term), Some(tag)), SearchNotes(notes, Some(term), None))
  {
    FilterWeaker(notes, SearchTest(Some(term), Some(tag)), SearchTest(Some(term), None));
  }

  /** An optional search string, lower-cased. */
  function LowerOf(s: Option<string>): (r: Option<string>)
    ensures r.Some? <==> s.Some?
  {
    match s
    case None => None
    case Some(v) => Some(Lower(v))
  }

  /** The case of the term and of the tag does not change what a search finds. */
  lemma SearchIgnoresCase(notes: seq<Note>, term: Option<string>, tag: Option<string>)
    ensures SearchNotes(notes, LowerOf(term), LowerOf(tag)) == SearchNotes(notes, term, tag)
  {
    if Truthy(term) || Truthy(tag) {
      forall n: Note
        ensures SearchTest(LowerOf(term), LowerOf(tag))(n) == SearchTest(term, tag)(n)
      {
        if term.Some? {
          LowerIdempotent(term.value);
        }
        if tag.Some? {
          LowerIdempotent(tag.value);
        }
      }
      FilterSame(notes, SearchTest(LowerOf(term), LowerOf(tag)), SearchTest(term, tag));
    }
  }

  // ---------------------------------------------------------------------------
  // The manager

  /** A `NotesManager` over its notes directory. */
  class NotesManager {
    /** The notes files present, by transcript id. */
    var files: map<string, NotesFile>

    /** Each file is filed under the transcript id it records. */
    ghost predicate Valid()
      reads this
    {
      forall id :: id in files ==> files[id].transcriptId == id
    }

    /** A manager over a notes directory that may already hold files from
        earlier sessions, each filed under the transcript id it records. */
    constructor (initial: map<string, NotesFile>)
      requires forall id :: id in initial ==> initial[id].transcriptId == id
      ensures Valid() && files == initial
    {
      files := initial;
    }

    /** `get_notes`: the notes of the transcript's file, or none when it has no file. */
    function GetNotes(path: string): (notes: seq<Note>)
      reads this
      ensures FileStem(path) !in files ==> notes == []
      ensures FileStem(path) in files ==> notes == files[FileStem(path)].notes
    {
      var id := FileStem(path);
      if id in files then files[id].notes else []
    }

    /** `add_note`: false, and nothing stored, when formatting the given time
        raises OverflowError; otherwise the transcript's file, created empty
        when missing, gets the new note at the end; no other file changes. */
    method AddNote(path: string, text: string, seconds: Option<real>, tags: Option<seq<string>>, now: string) returns (ok: bool)
      requires Valid()
      modifies this
      ensures Valid()
      ensures ok <==> !(seconds.Some? && TimedeltaOverflows(seconds.value))
      ensures !ok ==> files == old(files)
      ensures ok ==> FileStem(path) in files && GetNotes(path) == WithNote(old(GetNotes(path)), now, text, seconds, tags)
      ensures ok && FileStem(path) in old(files) ==>
        files == old(files)[FileStem(path) := old(files)[FileStem(path)].(notes := GetNotes(path))]
      ensures ok && FileStem(path) !in old(files) ==>
        files == old(files)[FileStem(path) := NotesFile(FileStem(path), path, GetNotes(path))]
    {
      var id := FileStem(path);
      var data;
      if id in files {
        data := files[id];
      } else {
        data := NotesFile(id, path, []);
      }
      assert data.notes == old(GetNotes(path));
      if seconds.Some? && TimedeltaOverflows(seconds.value) {
        return false;
      }
      var notes := WithNote(data.notes, now, text, seconds, tags);
      files := files[id := data.(notes := notes)];
      assert GetNotes(path) == notes;
      return true;
    }

    /** `update_note`: false, and nothing changed, when the transcript has no
        file or no note has the id; otherwise the first note with the id is
        revised in place. */
    method UpdateNote(path: string, noteId: int, text: Option<string>, tags: Option<seq<string>>, now: string) returns (ok: bool)
      requires Valid()
      modifies this
      ensures Valid()
      ensures ok <==> FileStem(path) in old(files) && UpdateNotes(old(GetNotes(path)), noteId, text, tags, now).Some?
      ensures !ok ==> files == old(files)
      ensures ok ==> files == old(files)[FileStem(path) :=
        old(files)[FileStem(path)].(notes := UpdateNotes(old(GetNotes(path)), noteId, text, tags, now).value)]
    {
      var id := FileStem(path);
      if id !in files {
        return false;
      }
      var data := files[id];
      var found := FindNote(data.notes, noteId);
      if found.None? {
        return false;
      }
      var i := found.value;
      assert data.notes == old(GetNotes(path));
      var note := data.notes[i];
      if text.Some? {
        note := note.(text := text.value);
      }
      if tags.Some? {
        note := note.(tags := tags.value);
      }
      note := note.(updatedAt := Some(now));
      files := files[id := data.(notes := data.notes[i := note])];
      return true;
    }

    /** `delete_note`: false, and nothing changed, when the transcript has no
        file or no note has the id; otherwise the first note with the id is
        removed. */
    method DeleteNote(path: string, noteId: int) returns (ok: bool)
      requires Valid()
      modifies this
      ensures Valid()
      ensures ok <==> FileStem(path) in old(files) && DeleteNotes(old(GetNotes(path)), noteId).Some?
      ensures !ok ==> files == old(files)
      ensures ok ==> files == old(files)[FileStem(path) :=
        old(files)[FileStem(path)].(notes := DeleteNotes(old(GetNotes(path)), noteId).value)]
    {
      var id := FileStem(path);
      if id !in files {
        return false;
      }
      var data := files[id];
      var found := FindNote(data.notes, noteId);
      if found.None? {
        return false;
      }
      var i := found.value;
      assert data.notes == old(GetNotes(path));
      assert DeleteNotes(data.notes, noteId) == Some(data.notes[..i] + data.notes[i + 1..]);
      files := files[id := data.(notes := data.notes[..i] + data.notes[i + 1..])];
      return true;
    }
  }
}
