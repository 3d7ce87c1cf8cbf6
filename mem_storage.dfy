/** The in-memory store behind the same interface: a Map per collection (whose iteration follows the
    order the keys were first set) and a counter per collection that hands out 1, 2, 3, ... and never
    goes back. Where it differs from the file-backed store: ids are never reissued, a listing without a
    parent finds nothing, note search also looks at the tags, and the type breakdown uses five fixed
    categories and skips folders. */
module MemStore {
  import opened Schema
  import opened Seqs
  import opened Text
  import opened Format
  import opened Stats
  import FileStore

  /** The values of a Map listed in its key order. */
  function Values<V>(order: seq<int>, m: map<int, V>): (r: seq<V>)
    requires forall i :: 0 <= i < |order| ==> order[i] in m
    ensures |r| == |order| && forall i :: 0 <= i < |order| ==> r[i] == m[order[i]]
  {
    seq(|order|, i requires 0 <= i < |order| => m[order[i]])
  }

  /** getFiles: `file.parentId === parentId`. A stored parent is a number or null, never undefined, so
      only a numeric argument can match. */
  function ListFiles(files: seq<File>, parentId: Option<int>): seq<File> {
    Filter(files, (f: File) => parentId.Some? && f.parentId == parentId)
  }

  /** Without an argument the listing is empty whatever is stored; with a number it is the file-backed
      store's listing. */
  lemma ListFilesSpec(files: seq<File>, parentId: Option<int>)
    ensures parentId.None? ==> ListFiles(files, parentId) == []
    ensures parentId.Some? ==> ListFiles(files, parentId) == FileStore.ListFiles(files, parentId)
  {
    if parentId.None? {
      FilterDropsAll(files, (f: File) => parentId.Some? && f.parentId == parentId);
    } else {
      FilterCongruent(files, (f: File) => parentId.Some? && f.parentId == parentId, (f: File) => f.parentId == parentId);
    }
  }

  /** createNote: `color ?? "default"`, `isPinned ?? false`, `tags ?? []`. */
  function NewNote(ins: InsertNote, id: int, now: int): (n: Note)
    ensures n.id == id && n.createdAt == now && n.updatedAt == now
    ensures n.title == ins.title && n.content == ins.content
    ensures n.color.Some? && n.isPinned.Some? && n.tags.Some?
    ensures ins.color.Some? ==> n.color == ins.color
    ensures ins.color.None? ==> n.color == Some("default")
    ensures ins.isPinned.Some? ==> n.isPinned == ins.isPinned
    ensures ins.isPinned.None? ==> n.isPinned == Some(false)
    ensures ins.tags.Some? ==> n.tags == ins.tags
    ensures ins.tags.None? ==> n.tags == Some([])
  {
    Note(id, ins.title, ins.content, Some(OrElse(ins.color, "default")), Some(OrElse(ins.isPinned, false)),
         Some(OrElse(ins.tags, [])), now, now)
  }

  /** searchFiles' test: name or original name, without a guard. */
  predicate FileMatches(f: File, q: string) {
    Contains(Lower(f.name), Lower(q)) || Contains(Lower(f.originalName), Lower(q))
  }

  /** searchNotes' test: title, content or some tag. */
  predicate NoteMatches(n: Note, q: string) {
    Contains(Lower(n.title), Lower(q)) || Contains(Lower(n.content), Lower(q)) ||
    (n.tags.Some? && exists k :: 0 <= k < |n.tags.value| && Contains(Lower(n.tags.value[k]), Lower(q)))
  }

  /** The two stores find the same files for every query. */
  lemma SearchFilesAgree(files: seq<File>, q: string)
    ensures Filter(files, (f: File) => FileMatches(f, q)) == FileStore.MatchingFiles(files, q)
  {
    forall i | 0 <= i < |files| ensures FileMatches(files[i], q) == FileStore.FileMatches(files[i], q) {
      FileStore.FileMatchesUnguarded(files[i], q);
    }
    FilterCongruent(files, (f: File) => FileMatches(f, q), (f: File) => FileStore.FileMatches(f, q));
  }

  /** Every note the file-backed store finds, this one finds too; a note can also be found by a tag alone. */
  lemma SearchNotesWiden(notes: seq<Note>, q: string)
    ensures var mem := Filter(notes, (n: Note) => NoteMatches(n, q));
      forall i :: 0 <= i < |FileStore.MatchingNotes(notes, q)| ==> FileStore.MatchingNotes(notes, q)[i] in mem
  {
    FilterMembers(notes, (n: Note) => NoteMatches(n, q));
  }

  /** A note whose title and content do not mention the query but whose tag does is found here and not
      by the file-backed store. */
  lemma TagOnlyMatch()
    ensures var n := Note(1, "", "", Some("default"), Some(false), Some(["Work"]), 0, 0);
      NoteMatches(n, "work") && !FileStore.NoteMatches(n, "work")
  {
    var n := Note(1, "", "", Some("default"), Some(false), Some(["Work"]), 0, 0);
    assert Lower("Work") == "work";
    assert Lower("work") == "work";
    assert StartsWith("work", "work");
    assert Contains(Lower(n.tags.value[0]), Lower("work"));
    assert !Contains("", "work");
  }

  // ----- analytics -----

  const Units: seq<string> := ["B", "KB", "MB", "GB"]

  /** The category of a MIME type, first match wins: image/, application/pdf, video/, then anything
      mentioning "document" or "text", else Other. */
  function Category(mime: string): (c: string)
    ensures c in ["Images", "PDFs", "Videos", "Documents", "Other"]
    ensures c == "Images" <==> StartsWith(mime, "image/")
    ensures c == "PDFs" <==> !StartsWith(mime, "image/") && mime == "application/pdf"
    ensures c == "Videos" <==> !StartsWith(mime, "image/") && mime != "application/pdf" && StartsWith(mime, "video/")
    ensures c == "Documents" <==>
      (!StartsWith(mime, "image/") && mime != "application/pdf" && !StartsWith(mime, "video/") &&
       (Contains(mime, "document") || Contains(mime, "text")))
  {
    if StartsWith(mime, "image/") then "Images"
    else if mime == "application/pdf" then "PDFs"
    else if StartsWith(mime, "video/") then "Videos"
    else if Contains(mime, "document") || Contains(mime, "text") then "Documents"
    else "Other"
  }

  /** The colour of a category; a name outside the table falls back to Other's. */
  function CategoryColor(kind: string): string {
    if kind == "PDFs" then "#ef4444"
    else if kind == "Images" then "#3b82f6"
    else if kind == "Documents" then "#10b981"
    else if kind == "Videos" then "#f59e0b"
    else "#8b5cf6"
  }

  function Categories(files: seq<File>): (r: seq<string>)
    ensures |r| == |files| && forall i :: 0 <= i < |files| ==> r[i] == Category(files[i].mimeType)
  {
    seq(|files|, i requires 0 <= i < |files| => Category(files[i].mimeType))
  }

  function NonFolders(files: seq<File>): (r: seq<File>)
    ensures IsSubseq(r, files)
    ensures forall i :: 0 <= i < |r| ==> r[i] in files && !r[i].isFolder
    ensures forall i :: 0 <= i < |files| && !files[i].isFolder ==> files[i] in r
  {
    var p := (f: File) => !f.isFolder;
    FilterIsSubseq(files, p);
    FilterMembers(files, p);
    Filter(files, p)
  }

  /** formatRelativeTime: whole minutes under an hour (negative for a future date), whole hours under a
      day, whole days beyond; every count is rounded down. */
  function RelativeTime(date: int, now: int): (t: TimeLabel)
    ensures t.MinutesAgo? <==> now - date < HourMs
    ensures t.MinutesAgo? ==> t.minutes * MinuteMs <= now - date < (t.minutes + 1) * MinuteMs
    ensures t.HoursAgo? <==> HourMs <= now - date < DayMs
    ensures t.HoursAgo? ==> 1 <= t.hours < 24 && t.hours * HourMs <= now - date < (t.hours + 1) * HourMs
    ensures t.DaysAgo? <==> DayMs <= now - date
    ensures t.DaysAgo? ==> 1 <= t.days && t.days * DayMs <= now - date < (t.days + 1) * DayMs
  {
    var diff := now - date;
    var mins, hours, days := diff / MinuteMs, diff / HourMs, diff / DayMs;
    if mins < 60 then MinutesAgo(mins)
    else if hours < 24 then HoursAgo(hours)
    else DaysAgo(days)
  }

  function ToRecent(f: File, now: int): FileStore.RecentFile {
    FileStore.RecentFile(f.id, f.name, FormatBytes(f.size, Units), RelativeTime(f.uploadDate, now), f.mimeType)
  }

  /** getRecentFiles: files only, newest first, the first limit of them, times relative to now. */
  function RecentFiles(files: seq<File>, limit: int, now: int): seq<FileStore.RecentFile> {
    var top := TopBy(NonFolders(files), (f: File) => f.uploadDate, limit);
    seq(|top|, i requires 0 <= i < |top| => ToRecent(top[i], now))
  }

  /** getLargestFiles: files only, largest first, the first limit of them. */
  function LargestFiles(files: seq<File>, limit: int): seq<File> {
    TopBy(NonFolders(files), (f: File) => f.size, limit)
  }

  /** The recent list holds no folder, is newest first and has min(limit, number of files) entries; the
      files summarised are drawn from the non-folders, and no file left out was uploaded later than one
      listed: they are the most recent ones. */
  lemma RecentFilesSpec(files: seq<File>, limit: int, now: int)
    ensures var r := RecentFiles(files, limit, now);
      var n := |NonFolders(files)|;
      (0 <= limit ==> |r| == if limit < n then limit else n) &&
      (forall i :: 0 <= i < |r| ==> exists f :: f in files && !f.isFolder && r[i] == ToRecent(f, now))
    ensures var nf := NonFolders(files);
      var top := TopBy(nf, (f: File) => f.uploadDate, limit);
      var r := RecentFiles(files, limit, now);
      |r| == |top| && (forall i :: 0 <= i < |top| ==> r[i] == ToRecent(top[i], now) && !top[i].isFolder) &&
      multiset(top) <= multiset(nf) &&
      (forall i, j :: 0 <= i < j < |top| ==> top[i].uploadDate >= top[j].uploadDate) &&
      (forall j :: 0 <= j < |nf| && nf[j] !in top ==>
        forall i :: 0 <= i < |top| ==> nf[j].uploadDate <= top[i].uploadDate)
    ensures var nf := NonFolders(files);
      var top := TopBy(nf, (f: File) => f.uploadDate, limit);
      forall x | x in multiset(nf) - multiset(top) :: forall i :: 0 <= i < |top| ==> x.uploadDate <= top[i].uploadDate
  {
    var key := (f: File) => f.uploadDate;
    var nf := NonFolders(files);
    var top := TopBy(nf, key, limit);
    var r := RecentFiles(files, limit, now);
    TopBySpec(nf, key, limit);
    forall i | 0 <= i < |top| ensures top[i] in nf && top[i] in files && !top[i].isFolder {
      assert top[i] in multiset(top);
      var k :| 0 <= k < |nf| && nf[k] == top[i];
    }
    forall i | 0 <= i < |r| ensures exists f :: f in files && !f.isFolder && r[i] == ToRecent(f, now) {
      assert r[i] == ToRecent(top[i], now);
    }
  }

  /** The largest list holds no folder, is largest first, and no file left out is larger than one kept. */
  lemma LargestFilesSpec(files: seq<File>, limit: int)
    ensures var r := LargestFiles(files, limit);
      var nf := NonFolders(files);
      (0 <= limit ==> |r| == if limit < |nf| then limit else |nf|) &&
      (forall i, j :: 0 <= i < j < |r| ==> r[i].size >= r[j].size) &&
      (forall i :: 0 <= i < |r| ==> !r[i].isFolder) &&
      (forall j :: 0 <= j < |nf| && nf[j] !in r ==> forall i :: 0 <= i < |r| ==> nf[j].size <= r[i].size)
    ensures var r := LargestFiles(files, limit);
      var nf := NonFolders(files);
      multiset(r) <= multiset(nf) &&
      forall x | x in multiset(nf) - multiset(r) :: forall i :: 0 <= i < |r| ==> x.size <= r[i].size
  {
    var nf := NonFolders(files);
    var r := LargestFiles(files, limit);
    TopBySpec(nf, (f: File) => f.size, limit);
    forall i | 0 <= i < |r| ensures !r[i].isFolder {
      assert r[i] in multiset(r);
      assert r[i] in nf;
    }
  }

  /** One row of the breakdown; the percentage is taken of every stored entry. */
  function CategoryRow(kind: string, count: nat, total: nat): TypeStat {
    TypeStat(kind, count, if total > 0 then Percent(count, total) else 0, CategoryColor(kind))
  }

  /** The counting loop over the categories of the files that are not folders, then one row per
      category in order of first appearance; the counts add up to the number of files counted. */
  method CategoryStats(kinds: seq<string>, total: nat) returns (stats: seq<TypeStat>)
    requires |kinds| <= total
    ensures |stats| == |Distinct(kinds)| && (stats != [] ==> total > 0)
    ensures forall k :: 0 <= k < |stats| ==> stats[k] == CategoryRow(Distinct(kinds)[k], multiset(kinds)[Distinct(kinds)[k]], total)
    ensures TotalCount(stats) == |kinds|
  {
    var order, counts := Tally(kinds);
    if order != [] {
      assert order[0] in kinds;
    }
    stats := seq(|order|, k requires 0 <= k < |order| => CategoryRow(order[k], counts[order[k]], total));
    TotalCountIsSum(stats, order, multiset(kinds));
    SumCountsDistinct(kinds);
  }

  // ----- the store -----

  class MemStorage {
    var files: map<int, File>
    var fileOrder: seq<int>
    var notes: map<int, Note>
    var noteOrder: seq<int>
    var currentFileId: int
    var currentNoteId: int
    /** Every id either counter has handed out. */
    ghost var fileIdsIssued: set<int>
    ghost var noteIdsIssued: set<int>

    /** Each Map's key order lists its keys once each, every record is stored under its own id, and every
        id handed out is below its counter. */
    ghost predicate Valid()
      reads this
    {
      NoDuplicates(fileOrder) && (forall k :: k in files <==> k in fileOrder) &&
      (forall i :: 0 <= i < |fileOrder| ==> fileOrder[i] in files) &&
      (forall k :: k in files ==> files[k].id == k && k in fileIdsIssued) &&
      1 <= currentFileId && (forall k :: k in fileIdsIssued ==> 1 <= k < currentFileId) &&
      NoDuplicates(noteOrder) && (forall k :: k in notes <==> k in noteOrder) &&
      (forall i :: 0 <= i < |noteOrder| ==> noteOrder[i] in notes) &&
      (forall k :: k in notes ==> notes[k].id == k && k in noteIdsIssued) &&
      1 <= currentNoteId && (forall k :: k in noteIdsIssued ==> 1 <= k < currentNoteId)
    }

    /** The stored files in Map order. */
    function FileList(): seq<File>
      reads this
      requires Valid()
    {
      Values(fileOrder, files)
    }

    function NoteList(): seq<Note>
      reads this
      requires Valid()
    {
      Values(noteOrder, notes)
    }

    constructor ()
      ensures Valid()
      ensures files == map[] && fileOrder == [] && notes == map[] && noteOrder == []
      ensures currentFileId == 1 && currentNoteId == 1
    {
      files, fileOrder, notes, noteOrder := map[], [], map[], [];
      currentFileId, currentNoteId := 1, 1;
      fileIdsIssued, noteIdsIssued := {}, {};
    }

    method GetFiles(parentId: Option<int>) returns (r: seq<File>)
      requires Valid()
      ensures r == ListFiles(FileList(), parentId)
    {
      r := ListFiles(Values(fileOrder, files), parentId);
    }

    method GetFile(id: int) returns (r: Option<File>)
      requires Valid()
      ensures r.Some? <==> id in files
      ensures r.Some? ==> r.value == files[id] && r.value.id == id
    {
      r := if id in files then Some(files[id]) else None;
    }

    /** Stores a record under the counter's id and advances the counter: the id has never been handed out
        before, and the record goes to the end of the Map order. */
    method CreateFile(ins: InsertFile, now: int) returns (f: File)
      requires Valid()
      modifies this`files, this`fileOrder, this`currentFileId, this`fileIdsIssued
      ensures Valid()
      ensures f == NewFile(ins, old(currentFileId), now)
      ensures f.id !in old(fileIdsIssued) && f.id !in old(files)
      ensures currentFileId == old(currentFileId) + 1
      ensures files == old(files)[f.id := f] && fileOrder == old(fileOrder) + [f.id]
      ensures fileIdsIssued == old(fileIdsIssued) + {f.id}
    {
      var id := currentFileId;
      currentFileId := currentFileId + 1;
      f := NewFile(ins, id, now);
      files := files[id := f];
      fileOrder := fileOrder + [id];
      fileIdsIssued := fileIdsIssued + {id};
    }

    /** Merges the update into the stored record; the key and its place in the Map order stay. An unknown
        id changes nothing. */
    method UpdateFile(id: int, u: FileUpdate, now: int) returns (r: Option<File>)
      requires Valid()
      modifies this`files
      ensures Valid()
      ensures r.None? <==> id !in old(files)
      ensures r.None? ==> files == old(files)
      ensures r.Some? ==> r.value == MergeFile(old(files)[id], u, now) && files == old(files)[id := r.value]
    {
      if id !in files {
        return None;
      }
      var updated := MergeFile(files[id], u, now);
      files := files[id := updated];
      r := Some(updated);
    }

    /** Map.delete: true exactly when the id was stored; every other entry stays as it was. */
    method DeleteFile(id: int) returns (removed: bool)
      requires Valid()
      modifies this`files, this`fileOrder
      ensures Valid()
      ensures removed <==> id in old(files)
      ensures files == old(files) - {id}
      ensures fileOrder == Filter(old(fileOrder), (k: int) => k != id)
    {
      removed := id in files;
      FilterNoDuplicates(fileOrder, (k: int) => k != id);
      FilterMembers(fileOrder, (k: int) => k != id);
      files := files - {id};
      fileOrder := Filter(fileOrder, (k: int) => k != id);
    }

    method SearchFiles(q: string) returns (r: seq<File>)
      requires Valid()
      ensures r == Filter(FileList(), (f: File) => FileMatches(f, q))
    {
      r := Filter(Values(fileOrder, files), (f: File) => FileMatches(f, q));
    }

    /** getNotes: every stored note, most recently updated first. */
    method GetNotes() returns (r: seq<Note>)
      requires Valid()
      ensures SortedDesc(r, (n: Note) => n.updatedAt)
      ensures multiset(r) == multiset(NoteList())
    {
      r := SortDesc(Values(noteOrder, notes), (n: Note) => n.updatedAt);
      SortDescSpec(Values(noteOrder, notes), (n: Note) => n.updatedAt);
    }

    method GetNote(id: int) returns (r: Option<Note>)
      requires Valid()
      ensures r.Some? <==> id in notes
      ensures r.Some? ==> r.value == notes[id] && r.value.id == id
    {
      r := if id in notes then Some(notes[id]) else None;
    }

    method CreateNote(ins: InsertNote, now: int) returns (n: Note)
      requires Valid()
      modifies this`notes, this`noteOrder, this`currentNoteId, this`noteIdsIssued
      ensures Valid()
      ensures n == NewNote(ins, old(currentNoteId), now)
      ensures n.id !in old(noteIdsIssued) && n.id !in old(notes)
      ensures currentNoteId == old(currentNoteId) + 1
      ensures notes == old(notes)[n.id := n] && noteOrder == old(noteOrder) + [n.id]
      ensures noteIdsIssued == old(noteIdsIssued) + {n.id}
    {
      var id := currentNoteId;
      currentNoteId := currentNoteId + 1;
      n := NewNote(ins, id, now);
      notes := notes[id := n];
      noteOrder := noteOrder + [id];
      noteIdsIssued := noteIdsIssued + {id};
    }

    method UpdateNote(id: int, u: NoteUpdate, now: int) returns (r: Option<Note>)
      requires Valid()
      modifies this`notes
      ensures Valid()
      ensures r.None? <==> id !in old(notes)
      ensures r.None? ==> notes == old(notes)
      ensures r.Some? ==> r.value == MergeNote(old(notes)[id], u, now) && notes == old(notes)[id := r.value]
    {
      if id !in notes {
        return None;
      }
      var updated := MergeNote(notes[id], u, now);
      notes := notes[id := updated];
      r := Some(updated);
    }

    method DeleteNote(id: int) returns (removed: bool)
      requires Valid()
      modifies this`notes, this`noteOrder
      ensures Valid()
      ensures removed <==> id in old(notes)
      ensures notes == old(notes) - {id}
      ensures noteOrder == Filter(old(noteOrder), (k: int) => k != id)
    {
      removed := id in notes;
      FilterNoDuplicates(noteOrder, (k: int) => k != id);
      FilterMembers(noteOrder, (k: int) => k != id);
      notes := notes - {id};
      noteOrder := Filter(noteOrder, (k: int) => k != id);
    }

    method SearchNotes(q: string) returns (r: seq<Note>)
      requires Valid()
      ensures r == Filter(NoteList(), (n: Note) => NoteMatches(n, q))
    {
      r := Filter(Values(noteOrder, notes), (n: Note) => NoteMatches(n, q));
    }

    /** getDashboardStats: the file-backed store's figures, with the unit table ending at GB. */
    method GetDashboardStats(now: int) returns (r: FileStore.DashboardStats)
      requires Valid()
      ensures r == FileStore.Dashboard(FileList(), NoteList(), now, Units)
    {
      r := FileStore.Dashboard(Values(fileOrder, files), Values(noteOrder, notes), now, Units);
    }

    /** getFileTypeStats: folders are skipped; one row per category present, in order of first
        appearance; the counts add up to the number of files that are not folders, while the percentage
        is taken of every stored entry, folders included. */
    method GetFileTypeStats() returns (stats: seq<TypeStat>)
      requires Valid()
      ensures var kinds := Categories(NonFolders(FileList()));
        |stats| == |Distinct(kinds)| && (stats != [] ==> |files| > 0) &&
        forall k :: 0 <= k < |stats| ==> stats[k] == CategoryRow(Distinct(kinds)[k], multiset(kinds)[Distinct(kinds)[k]], |files|)
      ensures TotalCount(stats) == |NonFolders(FileList())|
    {
      var all := Values(fileOrder, files);
      DistinctCard(fileOrder, files.Keys);
      stats := CategoryStats(Categories(NonFolders(all)), |files|);
    }

    method GetRecentFiles(limit: int, now: int) returns (r: seq<FileStore.RecentFile>)
      requires Valid()
      ensures r == RecentFiles(FileList(), limit, now)
    {
      r := RecentFiles(Values(fileOrder, files), limit, now);
    }

    method GetLargestFiles(limit: int) returns (r: seq<File>)
      requires Valid()
      ensures r == LargestFiles(FileList(), limit)
    {
      r := LargestFiles(Values(fileOrder, files), limit);
    }
  }

  /** A duplicate-free list of exactly the members of a set is as long as the set is large. */
  lemma {:induction false} DistinctCard(order: seq<int>, keys: set<int>)
    requires NoDuplicates(order)
    requires forall k :: k in keys <==> k in order
    ensures |order| == |keys|
  {
    if order == [] {
      assert forall k :: k !in keys;
      assert keys == {};
    } else {
      var last := order[|order| - 1];
      var init := order[..|order| - 1];
      assert order == init + [last];
      assert last in order && last in keys;
      assert last !in init;
      assert forall k :: k in keys - {last} <==> k in init;
      DistinctCard(init, keys - {last});
      assert keys == (keys - {last}) + {last};
    }
  }
}
