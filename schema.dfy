/** The records of the application (the `files` and `notes` tables and their insert and partial-update
    shapes), with the two record-building rules both stores share: a new file record is the insert data
    plus an id, two timestamps and defaults; an update is an object spread of the partial data over the
    stored record followed by a fresh modification time. Timestamps are milliseconds since the epoch. */
module Schema {

  datatype Option<T> = None | Some(value: T)

  /** The metadata object kept with a file; the upload handler stores a PDF stub whose fields are all null. */
  datatype Metadata = PdfMetadata(pages: Option<int>, title: Option<string>, author: Option<string>, wordCount: Option<int>)

  /** A row of `files`. parentId None is null: a root-level entry. */
  datatype File = File(
    id: int,
    name: string,
    originalName: string,
    path: string,
    size: int,
    mimeType: string,
    uploadDate: int,
    lastModified: int,
    isFolder: bool,
    parentId: Option<int>,
    metadata: Option<Metadata>)

  /** The data a file is created from. For the optional fields None stands for both undefined and null,
      which the stores treat alike (`?? default`). */
  datatype InsertFile = InsertFile(
    name: string,
    originalName: string,
    path: string,
    size: int,
    mimeType: string,
    isFolder: Option<bool>,
    parentId: Option<int>,
    metadata: Option<Metadata>)

  /** Partial<InsertFile>: None leaves a field alone; Some(None) sets a nullable field to null. */
  datatype FileUpdate = FileUpdate(
    name: Option<string>,
    originalName: Option<string>,
    path: Option<string>,
    size: Option<int>,
    mimeType: Option<string>,
    isFolder: Option<bool>,
    parentId: Option<Option<int>>,
    metadata: Option<Option<Metadata>>)

  /** A row of `notes`. color, isPinned and tags are None when the stored object lacks the property,
      which happens when a note was created through the file-backed store without them. */
  datatype Note = Note(
    id: int,
    title: string,
    content: string,
    color: Option<string>,
    isPinned: Option<bool>,
    tags: Option<seq<string>>,
    createdAt: int,
    updatedAt: int)

  /** The data a note is created from; the three optional fields may be left out. */
  datatype InsertNote = InsertNote(
    title: string,
    content: string,
    color: Option<string>,
    isPinned: Option<bool>,
    tags: Option<seq<string>>)

  /** Partial<InsertNote>: None leaves a field alone. */
  datatype NoteUpdate = NoteUpdate(
    title: Option<string>,
    content: Option<string>,
    color: Option<string>,
    isPinned: Option<bool>,
    tags: Option<seq<string>>)

  const NoFileChanges := FileUpdate(None, None, None, None, None, None, None, None)
  const NoNoteChanges := NoteUpdate(None, None, None, None, None)

  function OrElse<T>(o: Option<T>, d: T): T {
    if o.Some? then o.value else d
  }

  /** `{ ...file, id, uploadDate: now, lastModified: now, isFolder: file.isFolder ?? false,
      parentId: file.parentId ?? null, metadata: file.metadata ?? null }`. */
  function NewFile(ins: InsertFile, id: int, now: int): File {
    File(id, ins.name, ins.originalName, ins.path, ins.size, ins.mimeType, now, now,
         OrElse(ins.isFolder, false), ins.parentId, ins.metadata)
  }

  /** `{ ...file, ...updates, lastModified: now }`. */
  function MergeFile(f: File, u: FileUpdate, now: int): File {
    File(f.id, OrElse(u.name, f.name), OrElse(u.originalName, f.originalName), OrElse(u.path, f.path),
         OrElse(u.size, f.size), OrElse(u.mimeType, f.mimeType), f.uploadDate, now,
         OrElse(u.isFolder, f.isFolder), OrElse(u.parentId, f.parentId), OrElse(u.metadata, f.metadata))
  }

  /** `{ ...note, ...updates, updatedAt: now }`. */
  function MergeNote(n: Note, u: NoteUpdate, now: int): Note {
    Note(n.id, OrElse(u.title, n.title), OrElse(u.content, n.content),
         if u.color.Some? then u.color else n.color,
         if u.isPinned.Some? then u.isPinned else n.isPinned,
         if u.tags.Some? then u.tags else n.tags,
         n.createdAt, now)
  }

  /** A merge keeps the id and the creation time, stamps the modification time, and applying the same
      update again later only moves the stamp: the update is idempotent. */
  lemma MergeFileSpec(f: File, u: FileUpdate, t1: int, t2: int)
    ensures MergeFile(f, u, t1).id == f.id && MergeFile(f, u, t1).uploadDate == f.uploadDate
    ensures MergeFile(f, u, t1).lastModified == t1
    ensures MergeFile(MergeFile(f, u, t1), u, t2) == MergeFile(f, u, t2)
    ensures MergeFile(f, NoFileChanges, t1) == f.(lastModified := t1)
  {
  }

  lemma MergeNoteSpec(n: Note, u: NoteUpdate, t1: int, t2: int)
    ensures MergeNote(n, u, t1).id == n.id && MergeNote(n, u, t1).createdAt == n.createdAt
    ensures MergeNote(n, u, t1).updatedAt == t1
    ensures MergeNote(MergeNote(n, u, t1), u, t2) == MergeNote(n, u, t2)
    ensures MergeNote(n, NoNoteChanges, t1) == n.(updatedAt := t1)
  {
  }
}
