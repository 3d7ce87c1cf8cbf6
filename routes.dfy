/** The request handlers that change or query the store: upload, folder creation, update, delete,
    the three searches and the two dashboard lists. Each handler is a method over the file-backed store
    and the set of paths present on disk; a reply is the JSON body or the error status the handler sends. */
module Routes {
  import opened Schema
  import opened Seqs
  import opened Text
  import opened FileStore

  datatype Reply<T> = Ok(body: T) | BadRequest | NotFound | Failed

  /** A file multer has already written to disk: its generated name, the client's name, where it lies,
      its size and its MIME type. */
  datatype Received = Received(filename: string, originalName: string, path: string, size: int, mimeType: string)

  /** The metadata stub stored with a PDF. */
  const PdfStub := PdfMetadata(None, None, None, None)

  /** The record data built for one uploaded file. */
  function UploadInsert(file: Received, parentId: Option<int>): (ins: InsertFile)
    ensures ins.name == file.filename && ins.originalName == file.originalName && ins.path == file.path
    ensures ins.size == file.size && ins.mimeType == file.mimeType
    ensures ins.isFolder == Some(false) && ins.parentId == parentId
    ensures ins.metadata == if file.mimeType == "application/pdf" then Some(PdfStub) else None
  {
    InsertFile(file.filename, file.originalName, file.path, file.size, file.mimeType, Some(false), parentId,
               if file.mimeType == "application/pdf" then Some(PdfStub) else None)
  }

  /** `parentId ? Number(parentId) : undefined` on a JSON body: a numeric 0 is falsy and reads as no parent. */
  function FolderParent(parentId: Option<int>): (p: Option<int>)
    ensures p == if parentId == Some(0) then None else parentId
  {
    if parentId.Some? && parentId.value != 0 then parentId else None
  }

  /** The record data built for a folder. */
  function FolderInsert(name: string, parentId: Option<int>): InsertFile {
    InsertFile(name, name, "", 0, "application/folder", Some(true), FolderParent(parentId), None)
  }

  /** After creating a record, the next id is one more than the id just given. */
  lemma NextIdAfterCreate(files: seq<File>, ins: InsertFile, now: int)
    ensures var f := NewFile(ins, NextId(FileIds(files)), now);
      NextId(FileIds(files + [f])) == f.id + 1
  {
    var f := NewFile(ins, NextId(FileIds(files)), now);
    var ids := FileIds(files + [f]);
    assert ids[|files|] == f.id;
  }

  /** The records the first n files of an upload get when created in turn from the id first on; the
      k-th create reads the clock as times[k]. */
  function Uploads(received: seq<Received>, parentId: Option<int>, first: int, n: nat, times: seq<int>): seq<File>
    requires n <= |received| && n <= |times|
  {
    if n == 0 then []
    else Uploads(received, parentId, first, n - 1, times) +
         [NewFile(UploadInsert(received[n - 1], parentId), first + n - 1, times[n - 1])]
  }

  /** The k-th record of a batch is the k-th file's record with id first + k, stamped times[k]. */
  lemma {:induction false} UploadsAt(received: seq<Received>, parentId: Option<int>, first: int, n: nat, times: seq<int>)
    requires n <= |received| && n <= |times|
    ensures |Uploads(received, parentId, first, n, times)| == n
    ensures forall k :: 0 <= k < n ==>
      Uploads(received, parentId, first, n, times)[k] == NewFile(UploadInsert(received[k], parentId), first + k, times[k])
  {
    if n > 0 {
      UploadsAt(received, parentId, first, n - 1, times);
    }
  }

  /** Starting from the store's next id, a batch's ids are consecutive and none was in the store. */
  lemma UploadIdsFresh(files: seq<File>, received: seq<Received>, parentId: Option<int>, n: nat, times: seq<int>)
    requires n <= |received| && n <= |times|
    ensures var added := Uploads(received, parentId, NextId(FileIds(files)), n, times);
      forall k :: 0 <= k < |added| ==> added[k].id == NextId(FileIds(files)) + k && added[k].id !in FileIds(files)
  {
    UploadsAt(received, parentId, NextId(FileIds(files)), n, times);
  }

  /** One more upload record: created with the next id, it extends the batch and moves the next id on. */
  lemma UploadStep(before: seq<File>, saved: seq<File>, received: seq<Received>, parentId: Option<int>,
                   first: int, i: nat, times: seq<int>)
    requires i < |received| && i < |times| && saved == Uploads(received, parentId, first, i, times)
    requires NextId(FileIds(before + saved)) == first + i
    ensures var f := NewFile(UploadInsert(received[i], parentId), NextId(FileIds(before + saved)), times[i]);
      saved + [f] == Uploads(received, parentId, first, i + 1, times) &&
      (before + saved) + [f] == before + (saved + [f]) &&
      NextId(FileIds((before + saved) + [f])) == first + i + 1
  {
    NextIdAfterCreate(before + saved, UploadInsert(received[i], parentId), times[i]);
  }

  /** The paths multer has written for a batch. */
  function ReceivedPaths(received: seq<Received>): (paths: set<string>)
    ensures forall k :: 0 <= k < |received| ==> received[k].path in paths
    ensures forall p :: p in paths ==> exists k :: 0 <= k < |received| && received[k].path == p
  {
    set k | 0 <= k < |received| :: received[k].path
  }

  /** How many files of a batch of n get their record before the failure at failAt, if any. */
  function Processed(n: nat, failAt: Option<nat>): (k: nat)
    ensures k <= n
    ensures k < n <==> failAt.Some? && failAt.value < n
  {
    if failAt.Some? && failAt.value < n then failAt.value else n
  }

  class Server {
    const store: FileStorage
    /** The paths present in the upload directory. */
    var disk: set<string>

    constructor (store: FileStorage, disk: set<string>)
      ensures this.store == store && this.disk == disk
    {
      this.store := store;
      this.disk := disk;
    }

    /** POST /api/files/upload. Multer first writes every received file to the upload directory. An
        empty batch is then refused and creates nothing. Otherwise one record is created per file, in
        order, the k-th create reading the clock as times[k]; failAt stands for a create that throws,
        after which the reply is a failure and the records already created, like the written files,
        stay. */
    method Upload(received: seq<Received>, parentId: Option<int>, failAt: Option<nat>, times: seq<int>)
      returns (r: Reply<seq<File>>)
      requires |times| == |received|
      modifies store`files, this`disk
      ensures disk == old(disk) + ReceivedPaths(received)
      ensures received == [] ==> r == BadRequest && store.files == old(store.files)
      ensures received != [] ==>
        var n := Processed(|received|, failAt);
        store.files == old(store.files) + Uploads(received, parentId, NextId(FileIds(old(store.files))), n, times)
      ensures received != [] && Processed(|received|, failAt) < |received| ==> r == Failed
      ensures received != [] && Processed(|received|, failAt) == |received| ==>
        r == Ok(store.files[|old(store.files)|..])
    {
      disk := disk + ReceivedPaths(received);
      if received == [] {
        return BadRequest;
      }
      var n := Processed(|received|, failAt);
      var saved := CreateEach(received, parentId, n, times);
      if n < |received| {
        r := Failed;
      } else {
        r := Ok(saved);
      }
    }

    /** Creates the records of the first n uploaded files, one after the other, the i-th at time times[i]. */
    method CreateEach(received: seq<Received>, parentId: Option<int>, n: nat, times: seq<int>) returns (saved: seq<File>)
      requires n <= |received| && n <= |times|
      modifies store`files
      ensures saved == Uploads(received, parentId, NextId(FileIds(old(store.files))), n, times)
      ensures store.files == old(store.files) + saved
    {
      ghost var before := store.files;
      ghost var first := NextId(FileIds(before));
      saved := [];
      for i := 0 to n
        invariant saved == Uploads(received, parentId, first, i, times)
        invariant store.files == before + saved
        invariant NextId(FileIds(store.files)) == first + i
      {
        UploadStep(before, saved, received, parentId, first, i, times);
        var f := store.CreateFile(UploadInsert(received[i], parentId), times[i]);
        saved := saved + [f];
      }
    }

    /** POST /api/files/folder: one folder record under the given parent, whether or not that parent
        exists. A body without a name fails validation and creates nothing. */
    method CreateFolder(name: Option<string>, parentId: Option<int>, now: int) returns (r: Reply<File>)
      modifies store`files
      ensures name.None? ==> r == Failed && store.files == old(store.files)
      ensures name.Some? ==>
        r.Ok? && store.files == old(store.files) + [r.body] &&
        r.body == NewFile(FolderInsert(name.value, parentId), NextId(FileIds(old(store.files))), now)
    {
      if name.None? {
        return Failed;
      }
      var folder := store.CreateFile(FolderInsert(name.value, parentId), now);
      r := Ok(folder);
    }

    /** PUT /api/files/:id: not found exactly when the store reports no such record. */
    method UpdateFile(id: int, u: FileUpdate, now: int) returns (r: Reply<File>)
      modifies store`files
      ensures r.NotFound? <==> id !in FileIds(old(store.files))
      ensures r.NotFound? ==> store.files == old(store.files)
      ensures r.Ok? ==> var i := FindIndex(FileIds(old(store.files)), id);
        r.body == MergeFile(old(store.files)[i], u, now) && store.files == old(store.files)[i := r.body]
      ensures r.Ok? || r.NotFound?
    {
      var updated := store.UpdateFile(id, u, now);
      if updated.None? {
        return NotFound;
      }
      r := Ok(updated.value);
    }

    /** DELETE /api/files/:id: an unknown id is not found and changes nothing. Otherwise the stored blob
        is removed when the record has a path and it is on disk, then the record is deleted; nothing else
        is touched, so the records inside a deleted folder stay, pointing at a parent that is gone. */
    method DeleteFile(id: int) returns (r: Reply<bool>)
      modifies store`files, this`disk
      ensures FindFile(old(store.files), id).None? ==>
        r == NotFound && store.files == old(store.files) && disk == old(disk)
      ensures FindFile(old(store.files), id).Some? ==>
        var f := FindFile(old(store.files), id).value;
        r == Ok(true) && store.files == RemoveFile(old(store.files), id) &&
        disk == (if f.path != "" then old(disk) - {f.path} else old(disk))
    {
      var file := store.GetFile(id);
      if file.None? {
        return NotFound;
      }
      if file.value.path != "" && file.value.path in disk {
        disk := disk - {file.value.path};
      }
      var deleted := store.DeleteFile(id);
      r := Ok(deleted);
    }

    /** POST /api/notes: a body that fails validation is a failure; otherwise one note is created. */
    method CreateNote(body: Option<InsertNote>, now: int) returns (r: Reply<Note>)
      modifies store`notes
      ensures body.None? ==> r == Failed && store.notes == old(store.notes)
      ensures body.Some? ==>
        r.Ok? && store.notes == old(store.notes) + [r.body] &&
        r.body == NewNote(body.value, NextId(NoteIds(old(store.notes))), now)
    {
      if body.None? {
        return Failed;
      }
      var note := store.CreateNote(body.value, now);
      r := Ok(note);
    }

    /** PUT /api/notes/:id: not found exactly when the store reports no such note. */
    method UpdateNote(id: int, u: NoteUpdate, now: int) returns (r: Reply<Note>)
      modifies store`notes
      ensures r.NotFound? <==> id !in NoteIds(old(store.notes))
      ensures r.NotFound? ==> store.notes == old(store.notes)
      ensures r.Ok? ==> var i := FindIndex(NoteIds(old(store.notes)), id);
        r.body == MergeNote(old(store.notes)[i], u, now) && store.notes == old(store.notes)[i := r.body]
      ensures r.Ok? || r.NotFound?
    {
      var updated := store.UpdateNote(id, u, now);
      if updated.None? {
        return NotFound;
      }
      r := Ok(updated.value);
    }

    /** DELETE /api/notes/:id: never not found; the reply carries whether a note went. */
    method DeleteNote(id: int) returns (r: Reply<bool>)
      modifies store`notes
      ensures r.Ok? && (r.body <==> id in NoteIds(old(store.notes)))
      ensures store.notes == RemoveNote(old(store.notes), id)
    {
      var deleted := store.DeleteNote(id);
      r := Ok(deleted);
    }

    /** GET /api/files/search: a missing or empty q is refused; any other q is used as given, untrimmed. */
    method SearchFiles(q: Option<string>) returns (r: Reply<seq<File>>)
      ensures r.BadRequest? <==> q.None? || q.value == ""
      ensures r.Ok? ==> r.body == MatchingFiles(store.files, q.value)
      ensures r.Ok? || r.BadRequest?
    {
      if q.None? || q.value == "" {
        return BadRequest;
      }
      var found := store.SearchFiles(q.value);
      r := Ok(found);
    }

    /** GET /api/notes/search: the same rule for notes. */
    method SearchNotes(q: Option<string>) returns (r: Reply<seq<Note>>)
      ensures r.BadRequest? <==> q.None? || q.value == ""
      ensures r.Ok? ==> r.body == MatchingNotes(store.notes, q.value)
      ensures r.Ok? || r.BadRequest?
    {
      if q.None? || q.value == "" {
        return BadRequest;
      }
      var found := store.SearchNotes(q.value);
      r := Ok(found);
    }

    /** GET /api/search: a missing or blank q gives two empty lists without reading the store; otherwise
        both searches run on the trimmed query. */
    method Search(q: Option<string>) returns (r: Reply<(seq<File>, seq<Note>)>)
      ensures r.Ok?
      ensures q.None? || IsBlank(q.value) ==> r.body == ([], [])
      ensures q.Some? && !IsBlank(q.value) ==>
        r.body == (MatchingFiles(store.files, Trim(q.value)), MatchingNotes(store.notes, Trim(q.value)))
    {
      if q.None? || |Trim(q.value)| == 0 {
        return Ok(([], []));
      }
      var files := store.SearchFiles(Trim(q.value));
      var notes := store.SearchNotes(Trim(q.value));
      r := Ok((files, notes));
    }

    /** GET /api/dashboard/recent-files: limit 5 unless the query gives one. */
    method RecentFiles(limit: Option<int>) returns (r: Reply<seq<RecentFile>>)
      ensures r == Ok(FileStore.RecentFiles(store.files, if limit.Some? then limit.value else 5))
    {
      var n := if limit.Some? then limit.value else 5;
      var recent := store.GetRecentFiles(n);
      r := Ok(recent);
    }

    /** GET /api/dashboard/largest-files: limit 10 unless the query gives one. */
    method LargestFiles(limit: Option<int>) returns (r: Reply<seq<File>>)
      ensures r == Ok(FileStore.LargestFiles(store.files, if limit.Some? then limit.value else 10))
    {
      var n := if limit.Some? then limit.value else 10;
      var largest := store.GetLargestFiles(n);
      r := Ok(largest);
    }
  }

  /** A whitespace-only query to the combined search finds nothing, while the same query to the file
      search is a query for a space: every record whose name holds one matches. */
  lemma BlankQueryContrast(files: seq<File>)
    ensures IsBlank(" ")
    ensures forall i :: 0 <= i < |files| && Contains(Lower(files[i].name), " ") ==> files[i] in MatchingFiles(files, " ")
  {
    assert Lower(" ") == " ";
  }

  /** The record made for an uploaded file: a plain file with the given parent, the uploaded name,
      size and type, the PDF stub for a PDF and null metadata otherwise, stamped now, with the id given. */
  lemma UploadRecord(received: Received, parentId: Option<int>, id: int, now: int)
    ensures var f := NewFile(UploadInsert(received, parentId), id, now);
      f.id == id && !f.isFolder && f.parentId == parentId &&
      f.name == received.filename && f.originalName == received.originalName && f.path == received.path &&
      f.size == received.size && f.mimeType == received.mimeType &&
      f.uploadDate == now && f.lastModified == now &&
      f.metadata == (if received.mimeType == "application/pdf" then Some(PdfStub) else None)
  {
  }

  /** A folder record: empty path, size 0, the folder MIME type, both names the given one. */
  lemma FolderRecord(files: seq<File>, name: string, parentId: Option<int>, now: int)
    ensures var f := NewFile(FolderInsert(name, parentId), NextId(FileIds(files)), now);
      f.isFolder && f.path == "" && f.size == 0 && f.mimeType == "application/folder" &&
      f.name == name && f.originalName == name && f.metadata == None &&
      (parentId.Some? && parentId.value != 0 ==> f.parentId == parentId) &&
      f.id !in FileIds(files)
  {
  }
}
