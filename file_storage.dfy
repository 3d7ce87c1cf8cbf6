/** The store the server uses: two flat, ordered collections of file and note records, each operation a
    read-modify-write of the whole collection (the JSON files on disk are held here as two sequences).
    Ids are one more than the largest id present, updates replace a record in place, deletes filter,
    searches are case-insensitive substring matches, and the dashboard figures are derived on demand. */
module FileStore {
  import opened Schema
  import opened Seqs
  import opened Text
  import opened Format
  import opened Stats

  // ----- ids -----

  function FileIds(files: seq<File>): (ids: seq<int>)
    ensures |ids| == |files| && forall i :: 0 <= i < |files| ==> ids[i] == files[i].id
  {
    seq(|files|, i requires 0 <= i < |files| => files[i].id)
  }

  function NoteIds(notes: seq<Note>): (ids: seq<int>)
    ensures |ids| == |notes| && forall i :: 0 <= i < |notes| ==> ids[i] == notes[i].id
  {
    seq(|notes|, i requires 0 <= i < |notes| => notes[i].id)
  }

  /** Math.max(...ids) on a non-empty list. */
  function MaxId(ids: seq<int>): (m: int)
    requires ids != []
    ensures m in ids
    ensures forall i :: 0 <= i < |ids| ==> ids[i] <= m
  {
    if |ids| == 1 then ids[0]
    else
      var rest := MaxId(ids[1..]);
      if ids[0] >= rest then ids[0] else rest
  }

  /** `length ? Math.max(...ids) + 1 : 1`: larger than every id present, so never in use; one past the
      largest id when there is one. */
  function NextId(ids: seq<int>): (r: int)
    ensures forall i :: 0 <= i < |ids| ==> ids[i] < r
    ensures ids == [] ==> r == 1
    ensures ids != [] ==> r - 1 in ids
  {
    if ids == [] then 1 else MaxId(ids) + 1
  }

  /** Array.prototype.findIndex by id: the first position holding id, or -1. */
  function FindIndex(ids: seq<int>, id: int): (r: int)
    ensures -1 <= r < |ids|
    ensures r == -1 <==> id !in ids
    ensures 0 <= r ==> ids[r] == id && forall j :: 0 <= j < r ==> ids[j] != id
  {
    if ids == [] then -1
    else if ids[0] == id then 0
    else
      var k := FindIndex(ids[1..], id);
      if k < 0 then -1 else k + 1
  }

  // ----- files -----

  /** getFiles: with a number, the records whose parentId is that number; without one, the records whose
      parentId is null (or missing). Both are the records whose parent is exactly the one asked for, in
      stored order. */
  function ListFiles(files: seq<File>, parentId: Option<int>): (r: seq<File>)
    ensures IsSubseq(r, files)
    ensures forall i :: 0 <= i < |r| ==> r[i] in files && r[i].parentId == parentId
    ensures forall i :: 0 <= i < |files| && files[i].parentId == parentId ==> files[i] in r
  {
    var p := (f: File) => f.parentId == parentId;
    FilterIsSubseq(files, p);
    FilterMembers(files, p);
    Filter(files, p)
  }

  /** getFile: the first record with the id, if any. */
  function FindFile(files: seq<File>, id: int): (r: Option<File>)
    ensures r.None? <==> forall i :: 0 <= i < |files| ==> files[i].id != id
    ensures r.Some? ==> r.value.id == id && r.value == files[FindIndex(FileIds(files), id)]
  {
    var i := FindIndex(FileIds(files), id);
    if i < 0 then None else Some(files[i])
  }

  /** deleteFile's filter: every record with the id goes, every other record stays, in order. */
  function RemoveFile(files: seq<File>, id: int): (r: seq<File>)
    ensures IsSubseq(r, files)
    ensures forall i :: 0 <= i < |r| ==> r[i].id != id
    ensures forall i :: 0 <= i < |files| && files[i].id != id ==> files[i] in r
  {
    var p := (f: File) => f.id != id;
    FilterIsSubseq(files, p);
    FilterMembers(files, p);
    Filter(files, p)
  }

  /** searchFiles' test: the lower-cased query occurs in the lower-cased name, or in the lower-cased
      original name when that is non-empty. */
  predicate FileMatches(f: File, q: string) {
    Contains(Lower(f.name), Lower(q)) || (f.originalName != "" && Contains(Lower(f.originalName), Lower(q)))
  }

  function MatchingFiles(files: seq<File>, q: string): (r: seq<File>)
    ensures IsSubseq(r, files)
    ensures forall i :: 0 <= i < |r| ==> r[i] in files && FileMatches(r[i], q)
    ensures forall i :: 0 <= i < |files| && FileMatches(files[i], q) ==> files[i] in r
  {
    var p := (f: File) => FileMatches(f, q);
    FilterIsSubseq(files, p);
    FilterMembers(files, p);
    Filter(files, p)
  }

  // ----- notes -----

  /** createNote: `{ ...note, id, createdAt: now, updatedAt: now }`, with no defaults for the optional
      fields. */
  function NewNote(ins: InsertNote, id: int, now: int): (n: Note)
    ensures n.id == id && n.createdAt == now && n.updatedAt == now
    ensures n.title == ins.title && n.content == ins.content
    ensures n.color == ins.color && n.isPinned == ins.isPinned && n.tags == ins.tags
  {
    Note(id, ins.title, ins.content, ins.color, ins.isPinned, ins.tags, now, now)
  }

  function FindNote(notes: seq<Note>, id: int): (r: Option<Note>)
    ensures r.None? <==> forall i :: 0 <= i < |notes| ==> notes[i].id != id
    ensures r.Some? ==> r.value.id == id && r.value == notes[FindIndex(NoteIds(notes), id)]
  {
    var i := FindIndex(NoteIds(notes), id);
    if i < 0 then None else Some(notes[i])
  }

  function RemoveNote(notes: seq<Note>, id: int): (r: seq<Note>)
    ensures IsSubseq(r, notes)
    ensures forall i :: 0 <= i < |r| ==> r[i].id != id
    ensures forall i :: 0 <= i < |notes| && notes[i].id != id ==> notes[i] in r
  {
    var p := (n: Note) => n.id != id;
    FilterIsSubseq(notes, p);
    FilterMembers(notes, p);
    Filter(notes, p)
  }

  /** searchNotes' test: title or content; the tags are not looked at. */
  predicate NoteMatches(n: Note, q: string) {
    Contains(Lower(n.title), Lower(q)) || Contains(Lower(n.content), Lower(q))
  }

  function MatchingNotes(notes: seq<Note>, q: string): (r: seq<Note>)
    ensures IsSubseq(r, notes)
    ensures forall i :: 0 <= i < |r| ==> r[i] in notes && NoteMatches(r[i], q)
    ensures forall i :: 0 <= i < |notes| && NoteMatches(notes[i], q) ==> notes[i] in r
  {
    var p := (n: Note) => NoteMatches(n, q);
    FilterIsSubseq(notes, p);
    FilterMembers(notes, p);
    Filter(notes, p)
  }

  // ----- analytics -----

  /** 3 GiB. */
  const StorageLimit: int := 3 * 1024 * 1024 * 1024
  /** "Seven days ago", as a fixed number of milliseconds. */
  const WeekMs: int := 7 * DayMs
  const Units: seq<string> := ["B", "KB", "MB", "GB", "TB"]
  const Palette: seq<string> := ["#6366f1", "#f59e42", "#10b981", "#ef4444", "#eab308", "#3b82f6", "#a21caf"]

  datatype StorageUsage = StorageUsage(percentage: int, used: int, total: int)
  datatype DashboardStats = DashboardStats(
    totalFiles: nat,
    totalNotes: nat,
    storageUsed: ByteLabel,
    weeklyUploads: nat,
    storageUsage: StorageUsage)
  datatype RecentFile = RecentFile(id: int, name: string, size: ByteLabel, uploadTime: TimeLabel, mimeType: string)

  /** The sum of the sizes (`f.size || 0` is the size itself for a number). */
  function TotalSize(files: seq<File>): int {
    Sum(files, (f: File) => f.size)
  }

  /** The records uploaded at or after now - 7 days. */
  function WeeklyUploads(files: seq<File>, now: int): (n: nat)
    ensures n <= |files|
  {
    CountWhere(files, (f: File) => f.uploadDate >= now - WeekMs)
  }

  /** getDashboardStats: every record counts, folders included; the percentage is the nearest whole
      percent of the 3 GiB limit and is not clamped. */
  function Dashboard(files: seq<File>, notes: seq<Note>, now: int, units: seq<string>): (r: DashboardStats)
    ensures r.totalFiles == |files| && r.totalNotes == |notes|
    ensures r.weeklyUploads == WeeklyUploads(files, now) && r.weeklyUploads <= r.totalFiles
    ensures r.storageUsage.used == TotalSize(files) && r.storageUsage.total == StorageLimit
    ensures StorageLimit * (2 * r.storageUsage.percentage - 1) <= 200 * r.storageUsage.used
    ensures 200 * r.storageUsage.used < StorageLimit * (2 * r.storageUsage.percentage + 1)
    ensures r.storageUsed == FormatBytes(r.storageUsage.used, units)
  {
    var used := TotalSize(files);
    DashboardStats(|files|, |notes|, FormatBytes(used, units), WeeklyUploads(files, now),
      StorageUsage(Percent(used, StorageLimit), used, StorageLimit))
  }

  /** getTypeColor: the palette, cycled. */
  function TypeColor(idx: nat): (c: string)
    ensures c in Palette
  {
    Palette[idx % |Palette|]
  }

  function MimeTypes(files: seq<File>): (r: seq<string>)
    ensures |r| == |files| && forall i :: 0 <= i < |files| ==> r[i] == files[i].mimeType
  {
    seq(|files|, i requires 0 <= i < |files| => files[i].mimeType)
  }

  function ToRecent(f: File): RecentFile {
    RecentFile(f.id, f.name, FormatBytes(f.size, Units), LocaleDate(f.uploadDate), f.mimeType)
  }

  /** getRecentFiles: every record, newest upload first, the first limit of them. */
  function RecentFiles(files: seq<File>, limit: int): seq<RecentFile> {
    var top := TopBy(files, (f: File) => f.uploadDate, limit);
    seq(|top|, i requires 0 <= i < |top| => ToRecent(top[i]))
  }

  /** getLargestFiles: every record, largest first, the first limit of them. */
  function LargestFiles(files: seq<File>, limit: int): seq<File> {
    TopBy(files, (f: File) => f.size, limit)
  }

  // ----- the store -----

  class FileStorage {
    var files: seq<File>
    var notes: seq<Note>

    /** The store over the records already saved. */
    constructor (savedFiles: seq<File>, savedNotes: seq<Note>)
      ensures files == savedFiles && notes == savedNotes
    {
      files, notes := savedFiles, savedNotes;
    }

    method GetFiles(parentId: Option<int>) returns (r: seq<File>)
      ensures r == ListFiles(files, parentId)
    {
      r := ListFiles(files, parentId);
    }

    method GetFile(id: int) returns (r: Option<File>)
      ensures r == FindFile(files, id)
    {
      r := FindFile(files, id);
    }

    /** Appends one record with a fresh id; the records already there are untouched. */
    method CreateFile(ins: InsertFile, now: int) returns (f: File)
      modifies this`files
      ensures f == NewFile(ins, NextId(FileIds(old(files))), now)
      ensures files == old(files) + [f]
    {
      f := NewFile(ins, NextId(FileIds(files)), now);
      files := files + [f];
    }

    /** Replaces the first record with the id by the merge; an unknown id changes nothing. */
    method UpdateFile(id: int, u: FileUpdate, now: int) returns (r: Option<File>)
      modifies this`files
      ensures FindIndex(FileIds(old(files)), id) == -1 ==> r == None && files == old(files)
      ensures FindIndex(FileIds(old(files)), id) >= 0 ==>
        var i := FindIndex(FileIds(old(files)), id);
        r == Some(MergeFile(old(files)[i], u, now)) && files == old(files)[i := r.value]
    {
      var i := FindIndex(FileIds(files), id);
      if i == -1 {
        return None;
      }
      files := files[i := MergeFile(files[i], u, now)];
      r := Some(files[i]);
    }

    /** Filters the id out and reports whether anything went. */
    method DeleteFile(id: int) returns (removed: bool)
      modifies this`files
      ensures files == RemoveFile(old(files), id)
      ensures removed <==> exists i :: 0 <= i < |old(files)| && old(files)[i].id == id
    {
      var before := |files|;
      FilterShorter(files, (f: File) => f.id != id);
      files := RemoveFile(files, id);
      removed := |files| < before;
    }

    method SearchFiles(q: string) returns (r: seq<File>)
      ensures r == MatchingFiles(files, q)
    {
      r := MatchingFiles(files, q);
    }

    /** The notes in stored order. */
    method GetNotes() returns (r: seq<Note>)
      ensures r == notes
    {
      r := notes;
    }

    method GetNote(id: int) returns (r: Option<Note>)
      ensures r == FindNote(notes, id)
    {
      r := FindNote(notes, id);
    }

    method CreateNote(ins: InsertNote, now: int) returns (n: Note)
      modifies this`notes
      ensures n == NewNote(ins, NextId(NoteIds(old(notes))), now)
      ensures notes == old(notes) + [n]
    {
      n := NewNote(ins, NextId(NoteIds(notes)), now);
      notes := notes + [n];
    }

    method UpdateNote(id: int, u: NoteUpdate, now: int) returns (r: Option<Note>)
      modifies this`notes
      ensures FindIndex(NoteIds(old(notes)), id) == -1 ==> r == None && notes == old(notes)
      ensures FindIndex(NoteIds(old(notes)), id) >= 0 ==>
        var i := FindIndex(NoteIds(old(notes)), id);
        r == Some(MergeNote(old(notes)[i], u, now)) && notes == old(notes)[i := r.value]
    {
      var i := FindIndex(NoteIds(notes), id);
      if i == -1 {
        return None;
      }
      notes := notes[i := MergeNote(notes[i], u, now)];
      r := Some(notes[i]);
    }

    method DeleteNote(id: int) returns (removed: bool)
      modifies this`notes
      ensures notes == RemoveNote(old(notes), id)
      ensures removed <==> exists i :: 0 <= i < |old(notes)| && old(notes)[i].id == id
    {
      var before := |notes|;
      FilterShorter(notes, (n: Note) => n.id != id);
      notes := RemoveNote(notes, id);
      removed := |notes| < before;
    }

    method SearchNotes(q: string) returns (r: seq<Note>)
      ensures r == MatchingNotes(notes, q)
    {
      r := MatchingNotes(notes, q);
    }

    method GetDashboardStats(now: int) returns (r: DashboardStats)
      ensures r == Dashboard(files, notes, now, Units)
    {
      r := Dashboard(files, notes, now, Units);
    }

    /** getFileTypeStats: one row per distinct raw MIME type (folders appear as application/folder), in
        order of first appearance; the counts add up to the number of records, the percentages to about
        100, and row k is drawn in palette colour k mod 7. */
    method GetFileTypeStats() returns (stats: seq<TypeStat>)
      ensures var kinds := Distinct(MimeTypes(files));
        |stats| == |kinds| &&
        forall k :: 0 <= k < |stats| ==> stats[k] == TypeStat(kinds[k], multiset(MimeTypes(files))[kinds[k]],
          if |files| > 0 then Percent(multiset(MimeTypes(files))[kinds[k]], |files|) else 0, TypeColor(k))
      ensures TotalCount(stats) == |files|
      ensures |files| == 0 ==> stats == []
      ensures |files| > 0 ==> 200 - |stats| < 2 * TotalPercentage(stats) <= 200 + |stats|
    {
      var total := |files|;
      var mimes := MimeTypes(files);
      var order, counts := Tally(mimes);
      stats := seq(|order|, k requires 0 <= k < |order| =>
        TypeStat(order[k], counts[order[k]], if total > 0 then Percent(counts[order[k]], total) else 0, TypeColor(k)));
      TotalCountIsSum(stats, order, multiset(mimes));
      SumCountsDistinct(mimes);
      if total > 0 {
        PercentagesNear100(stats, total);
      }
    }

    method GetRecentFiles(limit: int) returns (r: seq<RecentFile>)
      ensures r == RecentFiles(files, limit)
    {
      r := RecentFiles(files, limit);
    }

    method GetLargestFiles(limit: int) returns (r: seq<File>)
      ensures r == LargestFiles(files, limit)
    {
      r := LargestFiles(files, limit);
    }
  }

  // ----- properties -----

  /** A created record's id is new, and the ids are 1, 2, 3, ... while nothing is deleted. */
  lemma {:induction false} CreatedIdsConsecutive(ids: seq<int>)
    requires forall i :: 0 <= i < |ids| ==> ids[i] == i + 1
    ensures NextId(ids) == |ids| + 1
    ensures NextId(ids) !in ids
  {
    if ids != [] {
      assert ids[|ids| - 1] == |ids|;
    }
  }

  /** Deleting the newest record hands its id out again on the next create: the id rule looks only at
      the records present. */
  lemma DeletedMaxIdReissued(files: seq<File>, ins: InsertFile, t: int)
    ensures var f := NewFile(ins, NextId(FileIds(files)), t);
      RemoveFile(files + [f], f.id) == files && NextId(FileIds(RemoveFile(files + [f], f.id))) == f.id
  {
    var f := NewFile(ins, NextId(FileIds(files)), t);
    var p := (g: File) => g.id != f.id;
    FilterAppend(files, [f], p);
    FilterKeepsAll(files, p);
    assert Filter([f], p) == [];
  }

  /** With distinct ids, deleting a present id removes exactly that one record. */
  lemma DeleteRemovesOne(files: seq<File>, k: int)
    requires 0 <= k < |files|
    requires NoDuplicates(FileIds(files))
    ensures RemoveFile(files, files[k].id) == files[..k] + files[k + 1..]
  {
    var id := files[k].id;
    assert forall i :: 0 <= i < |files| && i != k ==> files[i].id != id by {
      forall i | 0 <= i < |files| && i != k ensures files[i].id != id {
        assert FileIds(files)[i] != FileIds(files)[k];
      }
    }
    FilterDropsOne(files, (f: File) => f.id != id, k);
  }

  /** Deleting a folder leaves its children in place: after the delete they are still listed under the
      deleted id, and no record with that id is left. */
  lemma DeleteLeavesChildren(files: seq<File>, id: int)
    requires forall i :: 0 <= i < |files| && files[i].id == id ==> files[i].parentId != Some(id)
    ensures ListFiles(RemoveFile(files, id), Some(id)) == ListFiles(files, Some(id))
    ensures FindFile(RemoveFile(files, id), id) == None
  {
    var p := (f: File) => f.id != id;
    var q := (f: File) => f.parentId == Some(id);
    FilterCommute(files, p, q);
    var children := Filter(files, q);
    FilterMembers(files, q);
    FilterKeepsAll(children, p);
  }

  /** An update changes nothing but the record at the position found, and keeps the length and order. */
  lemma UpdateKeepsOthers(files: seq<File>, id: int, u: FileUpdate, now: int)
    requires FindIndex(FileIds(files), id) >= 0
    ensures var i := FindIndex(FileIds(files), id);
      var after := files[i := MergeFile(files[i], u, now)];
      |after| == |files| && FileIds(after) == FileIds(files) &&
      (forall j :: 0 <= j < |files| && j != i ==> after[j] == files[j]) &&
      after[i].lastModified == now && after[i].uploadDate == files[i].uploadDate
  {
    var i := FindIndex(FileIds(files), id);
    var after := files[i := MergeFile(files[i], u, now)];
    assert FileIds(after) == FileIds(files) by {
      forall j | 0 <= j < |files| ensures FileIds(after)[j] == FileIds(files)[j] {
      }
    }
  }

  /** The empty query matches every record. */
  lemma SearchFilesEmptyQuery(files: seq<File>)
    ensures MatchingFiles(files, "") == files
  {
    forall i | 0 <= i < |files| ensures FileMatches(files[i], "") {
      ContainsEmpty(Lower(files[i].name));
    }
    FilterKeepsAll(files, (f: File) => FileMatches(f, ""));
  }

  /** The search ignores the case of the query: lower- or upper-casing it gives the same records. */
  lemma SearchFilesIgnoresCase(files: seq<File>, q: string)
    ensures MatchingFiles(files, Lower(q)) == MatchingFiles(files, q)
    ensures MatchingFiles(files, Upper(q)) == MatchingFiles(files, q)
  {
    LowerIdempotent(q);
    LowerUpper(q);
    FilterCongruent(files, (f: File) => FileMatches(f, Lower(q)), (f: File) => FileMatches(f, q));
    FilterCongruent(files, (f: File) => FileMatches(f, Upper(q)), (f: File) => FileMatches(f, q));
  }

  /** The guard on the original name changes nothing: a record with an empty original name only matches
      the empty query, which its name matches anyway. */
  lemma FileMatchesUnguarded(f: File, q: string)
    ensures FileMatches(f, q) <==> Contains(Lower(f.name), Lower(q)) || Contains(Lower(f.originalName), Lower(q))
  {
    if f.originalName == "" {
      ContainedInEmpty(Lower(q));
      if Lower(q) == "" {
        ContainsEmpty(Lower(f.name));
      }
    }
  }

  lemma SearchNotesIgnoresCase(notes: seq<Note>, q: string)
    ensures MatchingNotes(notes, Lower(q)) == MatchingNotes(notes, q)
    ensures MatchingNotes(notes, Upper(q)) == MatchingNotes(notes, q)
  {
    LowerIdempotent(q);
    LowerUpper(q);
    FilterCongruent(notes, (n: Note) => NoteMatches(n, Lower(q)), (n: Note) => NoteMatches(n, q));
    FilterCongruent(notes, (n: Note) => NoteMatches(n, Upper(q)), (n: Note) => NoteMatches(n, q));
  }

  /** The storage percentage stays within 0..100 while the total fits the limit, and is not clamped
      beyond it: twice the limit reads as at least 200 percent. */
  lemma DashboardPercentage(files: seq<File>, notes: seq<Note>, now: int, units: seq<string>)
    ensures var d := Dashboard(files, notes, now, units);
      (0 <= d.storageUsage.used <= StorageLimit ==> 0 <= d.storageUsage.percentage <= 100) &&
      (d.storageUsage.used >= 2 * StorageLimit ==> d.storageUsage.percentage >= 200)
  {
    PercentBounds(TotalSize(files), StorageLimit);
  }

  /** A record uploaded within the last seven days adds one to the weekly count, an older one nothing. */
  lemma WeeklyUploadsAppend(files: seq<File>, f: File, now: int)
    ensures WeeklyUploads(files + [f], now) ==
      WeeklyUploads(files, now) + (if f.uploadDate >= now - WeekMs then 1 else 0)
  {
    FilterAppend(files, [f], (g: File) => g.uploadDate >= now - WeekMs);
  }

  /** A record created now counts as a weekly upload. */
  lemma NewFileIsWeekly(files: seq<File>, ins: InsertFile, now: int)
    ensures WeeklyUploads(files + [NewFile(ins, NextId(FileIds(files)), now)], now) == WeeklyUploads(files, now) + 1
  {
    WeeklyUploadsAppend(files, NewFile(ins, NextId(FileIds(files)), now), now);
  }

  /** The recent list: min(limit, n) entries for a non-negative limit, newest first, each made from a
      record of the store (folders included). The records summarised are drawn from the store without
      repetition beyond the store's own, and no record left out was uploaded later than one listed:
      they are the most recent ones. */
  lemma RecentFilesSpec(files: seq<File>, limit: int)
    ensures var r := RecentFiles(files, limit);
      (0 <= limit ==> |r| == if limit < |files| then limit else |files|) &&
      (forall i, j :: 0 <= i < j < |r| ==> r[i].uploadTime.date >= r[j].uploadTime.date) &&
      (forall i :: 0 <= i < |r| ==> exists f :: f in files && r[i] == ToRecent(f))
    ensures var top := TopBy(files, (f: File) => f.uploadDate, limit);
      var r := RecentFiles(files, limit);
      |r| == |top| && (forall i :: 0 <= i < |top| ==> r[i] == ToRecent(top[i])) &&
      multiset(top) <= multiset(files) &&
      (forall i, j :: 0 <= i < j < |top| ==> top[i].uploadDate >= top[j].uploadDate) &&
      (forall j :: 0 <= j < |files| && files[j] !in top ==>
        forall i :: 0 <= i < |top| ==> files[j].uploadDate <= top[i].uploadDate)
    ensures var top := TopBy(files, (f: File) => f.uploadDate, limit);
      forall x | x in multiset(files) - multiset(top) :: forall i :: 0 <= i < |top| ==> x.uploadDate <= top[i].uploadDate
  {
    var key := (f: File) => f.uploadDate;
    var top := TopBy(files, key, limit);
    TopBySpec(files, key, limit);
    forall i | 0 <= i < |top| ensures top[i] in files {
      assert top[i] in multiset(top);
    }
  }

  /** The largest list: min(limit, n) records for a non-negative limit, largest first, drawn from the
      store (folders included), and every record left out is no larger than every record kept. */
  lemma LargestFilesSpec(files: seq<File>, limit: int)
    ensures var r := LargestFiles(files, limit);
      (0 <= limit ==> |r| == if limit < |files| then limit else |files|) &&
      (forall i, j :: 0 <= i < j < |r| ==> r[i].size >= r[j].size) &&
      multiset(r) <= multiset(files) &&
      (forall j :: 0 <= j < |files| && files[j] !in r ==> forall i :: 0 <= i < |r| ==> files[j].size <= r[i].size)
    ensures var r := LargestFiles(files, limit);
      forall x | x in multiset(files) - multiset(r) :: forall i :: 0 <= i < |r| ==> x.size <= r[i].size
  {
    TopBySpec(files, (f: File) => f.size, limit);
  }
}
