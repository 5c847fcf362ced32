/** src/history_manager.py: the questions asked about each transcript and the
    answers given, in the order they were asked. The history directory is a
    map from transcript id (the transcript file's name without its
    extension) to the contents of `<id>_history.json`. */
module History {
  import opened Text
  import opened Seqs
  import opened Paths

  /** One question and its answer, stamped with the time it was recorded. */
  datatype Entry = Entry(timestamp: string, question: string, answer: string)

  /** The contents of one `<id>_history.json`. */
  datatype HistoryFile = HistoryFile(transcriptId: string, transcriptPath: string, entries: seq<Entry>)

  /** The test `search_history` applies: the lower-cased term occurs in the
      lower-cased question or in the lower-cased answer. */
  function MatchesTerm(term: string): Entry -> bool {
    var t := Lower(term);
    (e: Entry) => Contains(Lower(e.question), t) || Contains(Lower(e.answer), t)
  }

  /** `search_history` on the entries `get_history` returned. */
  function SearchHistory(entries: seq<Entry>, term: string): seq<Entry> {
    Filter(entries, MatchesTerm(term))
  }

  /** What a search asks of an entry, stated on the term as given. */
  predicate Mentions(e: Entry, term: string) {
    Contains(Lower(e.question), Lower(term)) || Contains(Lower(e.answer), Lower(term))
  }

  /** A search keeps exactly the entries that mention the term, each as often
      as it occurs and in their order; the empty term matches every entry. */
  lemma SearchHistorySelects(entries: seq<Entry>, term: string)
    ensures forall e :: e in SearchHistory(entries, term) <==> e in entries && Mentions(e, term)
    ensures forall e :: multiset(SearchHistory(entries, term))[e] == if Mentions(e, term) then multiset(entries)[e] else 0
    ensures IsSubsequence(SearchHistory(entries, term), entries)
    ensures term == "" ==> SearchHistory(entries, term) == entries
  {
    var mentions := (e: Entry) => Mentions(e, term);
    FilterSame(entries, MatchesTerm(term), mentions);
    FilterSpec(entries, mentions);
    if term == "" {
      forall k | 0 <= k < |entries|
        ensures MatchesTerm(term)(entries[k])
      {
        ContainsEmpty(Lower(entries[k].question));
      }
      FilterKeepsAll(entries, MatchesTerm(term));
    }
  }

  /** Searching after one more entry finds what it found before, then the new
      entry when that mentions the term. */
  lemma SearchAfterAdd(entries: seq<Entry>, e: Entry, term: string)
    ensures SearchHistory(entries + [e], term)
      == SearchHistory(entries, term) + (if Mentions(e, term) then [e] else [])
  {
    FilterSnoc(entries, e, MatchesTerm(term));
  }

  /** The case of the term does not change what a search finds. */
  lemma SearchIgnoresCase(entries: seq<Entry>, term: string)
    ensures SearchHistory(entries, Lower(term)) == SearchHistory(entries, term)
  {
    LowerIdempotent(term);
    assert MatchesTerm(Lower(term)) == MatchesTerm(term);
  }

  /** A `HistoryManager` over its history directory. */
  class HistoryManager {
    /** The history files present, by transcript id. */
    var files: map<string, HistoryFile>

    /** Each file is filed under the transcript id it records. */
    ghost predicate Valid()
      reads this
    {
      forall id :: id in files ==> files[id].transcriptId == id
    }

    /** A manager over a history directory that may already hold files from
        earlier sessions, each filed under the transcript id it records. */
    constructor (initial: map<string, HistoryFile>)
      requires forall id :: id in initial ==> initial[id].transcriptId == id
      ensures Valid() && files == initial
    {
      files := initial;
    }

    /** `get_history`: the entries of the transcript's file, or none when it has no file. */
    function GetHistory(path: string): (entries: seq<Entry>)
      reads this
      ensures FileStem(path) !in files ==> entries == []
      ensures FileStem(path) in files ==> entries == files[FileStem(path)].entries
    {
      var id := FileStem(path);
      if id in files then files[id].entries else []
    }

    /** `add_to_history`: the transcript's file, created empty when missing,
        gets one entry at the end; no other file changes. */
    method AddToHistory(path: string, question: string, answer: string, now: string) returns (ok: bool)
      requires Valid()
      modifies this
      ensures Valid() && ok
      ensures FileStem(path) in files && GetHistory(path) == old(GetHistory(path)) + [Entry(now, question, answer)]
      ensures FileStem(path) in old(files) ==>
        files == old(files)[FileStem(path) := old(files)[FileStem(path)].(entries := GetHistory(path))]
      ensures FileStem(path) !in old(files) ==>
        files == old(files)[FileStem(path) := HistoryFile(FileStem(path), path, GetHistory(path))]
    {
      var id := FileStem(path);
      var history;
      if id in files {
        history := files[id];
      } else {
        history := HistoryFile(id, path, []);
      }
      assert history.entries == old(GetHistory(path));
      var entry := Entry(now, question, answer);
      files := files[id := history.(entries := history.entries + [entry])];
      return true;
    }

    /** `clear_history`: true exactly when the transcript had a history file,
        which is then removed; afterwards its history is empty and no other
        file changes. */
    method ClearHistory(path: string) returns (ok: bool)
      requires Valid()
      modifies this
      ensures Valid()
      ensures ok <==> FileStem(path) in old(files)
      ensures files == old(files) - {FileStem(path)}
      ensures GetHistory(path) == []
    {
      var id := FileStem(path);
      if id in files {
        files := files - {id};
        return true;
      } else {
        return false;
      }
    }
  }
}
