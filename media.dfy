/** The entry index of the multimedia journal app: a JSON list of captured
    photos and videos kept in `entries.json` beside the media files, the
    newest-first list the Multimedia screen shows, its filters, and delete. */
module Media {
  import opened Wrappers
  import Seqs
  import Decimal

  datatype MediaType = Photo | Video

  datatype Coords = Coords(latitude: real, longitude: real)

  /** One index record. `note` is `None` for a record stored without one. */
  datatype Entry = Entry(id: string, uri: string, kind: MediaType, note: Option<string>,
                         location: Option<Coords>, date: string)

  function Extension(kind: MediaType): string
  {
    match kind
    case Photo => ".jpg"
    case Video => ".mp4"
  }

  /** The record a save builds for a capture taken at `timestamp`. */
  function NewEntry(dir: string, timestamp: nat, kind: MediaType, note: string,
                    location: Option<Coords>, date: string): Entry
  {
    var id := Decimal.ToDecimal(timestamp);
    Entry(id, dir + id + Extension(kind), kind, Some(note), location, date)
  }

  /** The file name of a saved entry is its id followed by the extension of its kind. */
  lemma NewEntryShape(dir: string, timestamp: nat, kind: MediaType, note: string,
                      location: Option<Coords>, date: string)
    ensures var e := NewEntry(dir, timestamp, kind, note, location, date);
            && e.id == Decimal.ToDecimal(timestamp) && e.id != ""
            && e.uri[..|dir|] == dir && e.uri[|dir|..|e.uri| - 4] == e.id
            && e.uri[|e.uri| - 4..] == (if kind == Photo then ".jpg" else ".mp4")
            && e.kind == kind && e.note == Some(note) && e.location == location
  {
  }

  /** Saves at distinct timestamps never share an id or a file path. */
  lemma NewEntriesDistinct(dir: string, t1: nat, t2: nat, k1: MediaType, k2: MediaType,
                           n1: string, n2: string, l1: Option<Coords>, l2: Option<Coords>,
                           d1: string, d2: string)
    requires t1 != t2
    ensures NewEntry(dir, t1, k1, n1, l1, d1).id != NewEntry(dir, t2, k2, n2, l2, d2).id
    ensures NewEntry(dir, t1, k1, n1, l1, d1).uri != NewEntry(dir, t2, k2, n2, l2, d2).uri
  {
    Decimal.ToDecimalInjective(t1, t2);
    NewEntryShape(dir, t1, k1, n1, l1, d1);
    NewEntryShape(dir, t2, k2, n2, l2, d2);
  }

  /** The newest save is the first entry of the reversed list. */
  lemma NewestShownFirst(stored: seq<Entry>, entry: Entry)
    ensures Seqs.Reverse(stored + [entry]) == [entry] + Seqs.Reverse(stored)
  {
    Seqs.ReverseConcat(stored, [entry]);
  }

  // ---------------------------------------------------------------- search

  /** `c` and `d` are the same letter in either case, or the same character. */
  predicate SameIgnoringCase(c: char, d: char)
  {
    || c == d
    || ('A' <= c <= 'Z' && (d as int) == (c as int) + 32)
    || ('A' <= d <= 'Z' && (c as int) == (d as int) + 32)
  }

  /** ASCII lower-casing of one character: the one character that is not an
      upper-case letter and is the same as `c` ignoring case. */
  function LowerChar(c: char): (r: char)
    ensures !('A' <= r <= 'Z') && SameIgnoringCase(c, r)
  {
    if 'A' <= c <= 'Z' then ((c as int) - ('A' as int) + ('a' as int)) as char else c
  }

  /** `toLowerCase`, on ASCII letters. */
  function Lower(s: string): (r: string)
    ensures |r| == |s|
    ensures forall i :: 0 <= i < |s| ==> r[i] == LowerChar(s[i])
  {
    seq(|s|, i requires 0 <= i < |s| => LowerChar(s[i]))
  }

  /** Two texts lower-case alike exactly when they differ only in the case of letters. */
  lemma LowerEqualIgnoringCase(s: string, t: string)
    ensures Lower(s) == Lower(t) <==> |s| == |t| && forall i :: 0 <= i < |s| ==> SameIgnoringCase(s[i], t[i])
  {
  }

  /** `text.includes(query)`. */
  predicate Contains(text: string, query: string)
  {
    exists i :: 0 <= i <= |text| - |query| && OccursAt(text, query, i)
  }

  predicate OccursAt(text: string, query: string, i: nat)
    requires i + |query| <= |text|
  {
    text[i..i + |query|] == query
  }

  lemma ContainsEmpty(text: string)
    ensures Contains(text, "")
  {
    assert OccursAt(text, "", 0);
  }

  /** `entry.note?.toLowerCase().includes(query.toLowerCase())`: false for an entry without a note. */
  predicate NoteMatches(e: Entry, query: string)
  {
    e.note.Some? && Contains(Lower(e.note.value), Lower(query))
  }

  /** The search does not see the case of letters in the query. */
  lemma NoteMatchIgnoresCase(e: Entry, query: string, other: string)
    requires |query| == |other| && forall i :: 0 <= i < |query| ==> SameIgnoringCase(query[i], other[i])
    ensures NoteMatches(e, query) == NoteMatches(e, other)
  {
    LowerEqualIgnoringCase(query, other);
  }

  /** The filter buttons of the Multimedia screen. */
  datatype Tab = All | Photos | Videos

  /** The predicate of the Multimedia screen: a type tab returns before the
      search is looked at; on the all tab a non-empty search must match the note. */
  function MultimediaKeeps(tab: Tab, query: string): Entry -> bool
  {
    (e: Entry) =>
      if tab == Photos then e.kind == Photo
      else if tab == Videos then e.kind == Video
      else query == "" || NoteMatches(e, query)
  }

  function MultimediaView(entries: seq<Entry>, tab: Tab, query: string): (r: seq<Entry>)
    ensures forall i :: 0 <= i < |r| ==> r[i] in entries
    ensures tab == Photos ==>
              (forall i :: 0 <= i < |r| ==> r[i].kind == Photo) &&
              (forall i :: 0 <= i < |entries| && entries[i].kind == Photo ==> entries[i] in r)
    ensures tab == Videos ==>
              (forall i :: 0 <= i < |r| ==> r[i].kind == Video) &&
              (forall i :: 0 <= i < |entries| && entries[i].kind == Video ==> entries[i] in r)
    ensures tab == All && query != "" ==>
              (forall i :: 0 <= i < |r| ==> NoteMatches(r[i], query)) &&
              (forall i :: 0 <= i < |entries| && NoteMatches(entries[i], query) ==> entries[i] in r)
    ensures tab == Photos ==> forall e :: multiset(r)[e] == if e.kind == Photo then multiset(entries)[e] else 0
    ensures tab == Videos ==> forall e :: multiset(r)[e] == if e.kind == Video then multiset(entries)[e] else 0
    ensures tab == All ==>
              forall e :: multiset(r)[e] == if query == "" || NoteMatches(e, query) then multiset(entries)[e] else 0
  {
    Seqs.FilterMultiset(MultimediaKeeps(tab, query), entries);
    Seqs.Filter(MultimediaKeeps(tab, query), entries)
  }

  /** The type tabs ignore the search text; the all tab with no search shows
      everything; every view keeps the screen's order. */
  lemma MultimediaViewFacts(entries: seq<Entry>, tab: Tab, query: string, other: string)
    ensures tab != All ==> MultimediaView(entries, tab, query) == MultimediaView(entries, tab, other)
    ensures tab == All && query == "" ==> MultimediaView(entries, tab, query) == entries
    ensures Seqs.IsSubsequence(MultimediaView(entries, tab, query), entries)
  {
    if tab != All {
      Seqs.FilterAgree(MultimediaKeeps(tab, query), MultimediaKeeps(tab, other), entries);
    }
    if tab == All && query == "" {
      Seqs.FilterKeepsAll(MultimediaKeeps(tab, query), entries);
    }
    Seqs.FilterIsSubsequence(MultimediaKeeps(tab, query), entries);
  }

  function FileListKeeps(query: string): Entry -> bool
  {
    (e: Entry) => NoteMatches(e, query)
  }

  /** The search of the file-list screen: exactly the entries whose note
      contains the text, ignoring ASCII case, in list order; entries without
      a note never. */
  function FileListView(entries: seq<Entry>, query: string): (r: seq<Entry>)
    ensures forall i :: 0 <= i < |r| ==> r[i] in entries && r[i].note.Some? && NoteMatches(r[i], query)
    ensures forall i :: 0 <= i < |entries| && NoteMatches(entries[i], query) ==> entries[i] in r
    ensures forall e :: multiset(r)[e] == if NoteMatches(e, query) then multiset(entries)[e] else 0
    ensures Seqs.IsSubsequence(r, entries)
  {
    Seqs.FilterMultiset(FileListKeeps(query), entries);
    Seqs.FilterIsSubsequence(FileListKeeps(query), entries);
    Seqs.Filter(FileListKeeps(query), entries)
  }

  /** With no search text the file list shows every entry that has a note,
      every copy of it, in order, and no entry without a note. */
  lemma FileListEmptyQuery(entries: seq<Entry>)
    ensures forall e :: multiset(FileListView(entries, ""))[e] == if e.note.Some? then multiset(entries)[e] else 0
    ensures Seqs.IsSubsequence(FileListView(entries, ""), entries)
  {
    forall e: Entry | e.note.Some?
      ensures NoteMatches(e, "")
    {
      ContainsEmpty(Lower(e.note.value));
    }
  }

  // ---------------------------------------------------------------- delete

  /** `entries.find(entry => entry.id === id)`. */
  function FindById(entries: seq<Entry>, id: string): (r: Option<Entry>)
    ensures r.None? <==> forall i :: 0 <= i < |entries| ==> entries[i].id != id
    ensures r.Some? ==>
              exists k :: 0 <= k < |entries| && entries[k] == r.value && r.value.id == id &&
                          forall j :: 0 <= j < k ==> entries[j].id != id
  {
    if entries == [] then None
    else if entries[0].id == id then Some(entries[0])
    else
      var r := FindById(entries[1..], id);
      assert forall i :: 1 <= i < |entries| ==> entries[i] == entries[1..][i - 1];
      r
  }

  function NotId(id: string): Entry -> bool
  {
    (e: Entry) => e.id != id
  }

  /** `entries.filter(entry => entry.id !== id)`. */
  function RemoveId(entries: seq<Entry>, id: string): (r: seq<Entry>)
    ensures forall i :: 0 <= i < |r| ==> r[i].id != id && r[i] in entries
    ensures forall i :: 0 <= i < |entries| && entries[i].id != id ==> entries[i] in r
    ensures forall e :: multiset(r)[e] == if e.id != id then multiset(entries)[e] else 0
  {
    Seqs.FilterMultiset(NotId(id), entries);
    Seqs.Filter(NotId(id), entries)
  }

  /** Writing back the filtered screen list, which is the stored index
      reversed, stores the survivors in reversed order. */
  lemma DeleteFlipsStoredOrder(stored: seq<Entry>, id: string)
    ensures RemoveId(Seqs.Reverse(stored), id) == Seqs.Reverse(RemoveId(stored, id))
  {
    Seqs.FilterReverse(NotId(id), stored);
  }

  /** An index [a, b, c] (c saved last) shown as [c, b, a]: deleting b writes
      [c, a], and the next load shows [a, c], oldest first, where the
      newest-first order would be [c, a]. */
  lemma DeleteThenReloadShowsOldestFirst(a: Entry, b: Entry, c: Entry)
    requires a.id != b.id && c.id != b.id && a != c
    ensures Seqs.Reverse(RemoveId(Seqs.Reverse([a, b, c]), b.id)) == [a, c]
    ensures Seqs.Reverse(RemoveId([a, b, c], b.id)) == [c, a]
    ensures [a, c] != [c, a]
  {
    assert [a, b, c][1..] == [b, c];
    assert [b, c][1..] == [c];
    assert Seqs.Reverse([c]) == [c];
    assert Seqs.Reverse([a, b, c]) == [c, b, a];
    assert [c, b, a][1..] == [b, a];
    assert [b, a][1..] == [a];
    var keep := NotId(b.id);
    assert Seqs.Filter(keep, [a]) == [a];
    assert Seqs.Filter(keep, [b, a]) == [a];
    assert Seqs.Filter(keep, [c, b, a]) == [c, a];
    assert [c, a][1..] == [a];
    assert Seqs.Reverse([c, a]) == [a, c];
    assert Seqs.Filter(keep, [c]) == [c];
    assert Seqs.Filter(keep, [b, c]) == [c];
    assert Seqs.Filter(keep, [a, b, c]) == [a, c];
    assert [a, c][1..] == [c];
  }

  /** With the survivors written back in stored order, the index keeps its
      order and the next load shows exactly the list on screen. */
  lemma DeleteKeepingOrderCorrect(stored: seq<Entry>, id: string)
    ensures Seqs.Reverse(RemoveId(Seqs.Reverse(stored), id)) == RemoveId(stored, id)
    ensures Seqs.Reverse(Seqs.Reverse(RemoveId(Seqs.Reverse(stored), id))) == RemoveId(Seqs.Reverse(stored), id)
  {
    DeleteFlipsStoredOrder(stored, id);
    Seqs.ReverseInvolution(RemoveId(stored, id));
    Seqs.ReverseInvolution(RemoveId(Seqs.Reverse(stored), id));
  }

  // ---------------------------------------------------------------- state

  class Journal {
    /** The app's media directory; `entries.json` lives in it. */
    const dir: string
    /** The paths of the files on the device: captures and saved media. */
    var files: set<string>
    /** The content of `entries.json`; `None` while the file does not exist. */
    var index: Option<seq<Entry>>
    /** The `entries` state of the Multimedia screen. */
    var shown: seq<Entry>

    /** The screen shows the stored index, newest first. */
    ghost predicate InSync()
      reads this
    {
      shown == Seqs.Reverse(Stored())
    }

    constructor (dir: string, files: set<string>)
      ensures this.dir == dir && this.files == files
      ensures index == None && shown == []
    {
      this.dir := dir;
      this.files := files;
      index := None;
      shown := [];
    }

    /** The index as read, with a missing file read as `[]`. */
    function Stored(): seq<Entry>
      reads this
    {
      if index.Some? then index.value else []
    }

    /** `saveEntry` of the photo screen (kind `Photo`) and of the video screen
        (kind `Video`): nothing without a capture; otherwise the capture is
        moved to `<dir><timestamp><ext>` and only then is the new entry
        appended to the index. A failed move leaves everything as it was. */
    method SaveEntry(kind: MediaType, captured: Option<string>, timestamp: nat, note: string,
                     location: Option<Coords>, date: string)
      modifies this
      ensures shown == old(shown)
      ensures captured.None? || captured.value !in old(files) ==>
                files == old(files) && index == old(index)
      ensures captured.Some? && captured.value in old(files) ==>
                var entry := NewEntry(dir, timestamp, kind, note, location, date);
                && files == old(files) - {captured.value} + {entry.uri}
                && index == Some(old(Stored()) + [entry])
    {
      if captured.None? {
        return;
      }
      var timestampText := Decimal.ToDecimal(timestamp);
      var filePath := dir + timestampText + Extension(kind);
      if captured.value !in files {
        return;
      }
      files := files - {captured.value} + {filePath};
      var entry := Entry(timestampText, filePath, kind, Some(note), location, date);
      var entries := Stored();
      entries := entries + [entry];
      index := Some(entries);
    }

    /** `loadEntries`: the screen shows the index reversed, newest first. */
    method LoadEntries()
      modifies this
      ensures shown == Seqs.Reverse(Stored())
      ensures |shown| == |Stored()| && forall k :: 0 <= k < |shown| ==> shown[k] == Stored()[|Stored()| - 1 - k]
      ensures InSync()
      ensures files == old(files) && index == old(index)
    {
      shown := Seqs.Reverse(Stored());
      Seqs.ReverseLength(Stored());
      forall k | 0 <= k < |shown|
        ensures shown[k] == Stored()[|Stored()| - 1 - k]
      {
        Seqs.ReverseAt(Stored(), k);
      }
    }

    /** `deleteEntry` as written: finds the first shown entry with the id,
        deletes its file, then writes the filtered screen list as the index.
        An unknown id or a missing file aborts before anything is written. */
    method DeleteEntry(id: string)
      modifies this
      ensures match FindById(old(shown), id)
        case None => files == old(files) && index == old(index) && shown == old(shown)
        case Some(e) =>
          if e.uri !in old(files) then files == old(files) && index == old(index) && shown == old(shown)
          else
            && files == old(files) - {e.uri}
            && shown == RemoveId(old(shown), id)
            && index == Some(RemoveId(old(shown), id))
      ensures old(InSync()) && FindById(old(shown), id).Some? && FindById(old(shown), id).value.uri in old(files) ==>
                index == Some(Seqs.Reverse(RemoveId(old(Stored()), id)))
    {
      var entryToDelete := FindById(shown, id);
      if entryToDelete.None? {
        return;
      }
      if entryToDelete.value.uri !in files {
        return;
      }
      DeleteFlipsStoredOrder(Stored(), id);
      var updatedEntries := RemoveId(shown, id);
      files := files - {entryToDelete.value.uri};
      index := Some(updatedEntries);
      shown := updatedEntries;
    }

    /** `deleteEntry` writing the survivors back in stored order: the index
        loses exactly the entries with the id and keeps its order, and the
        screen stays in step with it. */
    method DeleteEntryKeepingOrder(id: string)
      modifies this
      ensures match FindById(old(shown), id)
        case None => files == old(files) && index == old(index) && shown == old(shown)
        case Some(e) =>
          if e.uri !in old(files) then files == old(files) && index == old(index) && shown == old(shown)
          else
            && files == old(files) - {e.uri}
            && shown == RemoveId(old(shown), id)
            && index == Some(Seqs.Reverse(RemoveId(old(shown), id)))
      ensures old(InSync()) ==> InSync()
      ensures old(InSync()) && FindById(old(shown), id).Some? && FindById(old(shown), id).value.uri in old(files) ==>
                index == Some(RemoveId(old(Stored()), id))
    {
      var entryToDelete := FindById(shown, id);
      if entryToDelete.None? {
        return;
      }
      if entryToDelete.value.uri !in files {
        return;
      }
      DeleteKeepingOrderCorrect(Stored(), id);
      var updatedEntries := RemoveId(shown, id);
      files := files - {entryToDelete.value.uri};
      index := Some(Seqs.Reverse(updatedEntries));
      shown := updatedEntries;
    }
  }
}
