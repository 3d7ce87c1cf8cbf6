# CloudNexus core, modelled in Dafny

CloudNexus is a personal cloud: a server keeps uploaded files, folders and notes, and a web client
shows them on a dashboard, a file browser and a notes page. This project models its core:

- **the file-backed store** (`server/file-storage.ts`). Every operation reads the whole list of
  records, works on it and writes it back. In the model the lists are the `files` and `notes` fields of
  the class `FileStore.FileStorage`. A new id is one more than the largest id stored. Other members
  cover listing by parent, lookup, update by merge, deletion, case-insensitive search, dashboard
  totals, per-MIME-type statistics, and the recent and largest files;
- **the in-memory store** (`server/storage.ts`), class `MemStore.MemStorage`. It keeps two maps keyed
  by id plus the counters that issue ids. It searches notes by their tags too, groups files into
  categories, skips folders in its lists, and gives times relative to now;
- **the request handlers** (`server/routes.ts`), class `Routes.Server` over a `FileStorage`. It
  covers upload (one record per received file, a stub metadata record for a PDF), folder creation,
  update and delete (delete also removes the stored file from disk), the search routes (missing or
  empty query, blank combined query) and the default limits of the recent and largest lists;
- **the note editor** (`client/src/components/notes/note-editor.tsx`), class `NoteEditor.Editor`. It
  covers tag normalisation (`#`, hashes stripped, camelCase for several words), adding tags (split on
  `#`, duplicates and known tags dropped, at most eight tags), removing a tag, saving, auto-save on
  close and the reset when the note changes;
- **the client helpers** (`client/src/lib/utils.ts`), module `Utils`: byte sizes, relative times, file
  icons, badge colours, note border classes and truncation;
- **the notes page** (`client/src/pages/notes.tsx`), module `NotesPage`: the colour and pin filter, the
  pin toggle, and the create-or-update choice on save with the page state around it.

Values shared by both stores live in `Schema`: records, insert shapes, partial updates and the merge
`{ ...record, ...updates, stamp: now }`. Generic sequence facts (filter, sort, slice, distinct keys,
sums) live in `Seqs`. String facts (lower case, trim, split, contains) live in `Text`. Byte and
time labels live in `Format`, and the counting loop behind the type statistics in `Stats`.

Text that the source renders with floating point or locale rules is kept as a value that says what
would be rendered:

- `ByteLabel`: a unit index, and the unit name when the table has one;
- `TimeLabel`: a bucket and its whole count, or the date handed to the locale formatter;
- `Percent`: `Math.round(100 * part / whole)` computed exactly on rationals.

The clock is a `now` parameter.

## Model

| member | source | states |
|---|---|---|
| Schema.MergeFileSpec | server/file-storage.ts:58-69 | merging a partial update keeps the file's id and upload date and sets the modification time; applying the same update again only moves the stamp; an empty update changes nothing else |
| Schema.MergeNoteSpec | server/file-storage.ts:102-109 | the same for notes: id and creation time kept, `updatedAt` stamped, updates idempotent, an empty update changes only the stamp |
| FileStore.MaxId | server/file-storage.ts:42 | `Math.max` over a non-empty id list is one of the ids and no id exceeds it |
| FileStore.NextId | server/file-storage.ts:42 | the new id is above every stored id, is 1 for an empty store, and otherwise is the largest id plus one |
| FileStore.FindIndex | server/file-storage.ts:60 | `findIndex`: -1 exactly when the id is absent, otherwise the first position holding it |
| FileStore.ListFiles | server/file-storage.ts:31-34 | the listing is an order-preserving subsequence holding exactly the records whose parent is the one asked for (no parent = null or missing) |
| FileStore.FindFile | server/file-storage.ts:36-38 | `find` is None exactly when no record has the id, otherwise the first record with it |
| FileStore.RemoveFile | server/file-storage.ts:71-77 | the kept records are an ordered subsequence without the id, and every record with another id is kept |
| FileStore.MatchingFiles | server/file-storage.ts:79-82 | search results are an ordered subsequence holding exactly the records whose name or non-empty original name contains the query, ignoring case |
| FileStore.NewNote | server/file-storage.ts:92-100 | a created note carries the given fields, the new id, and creation and update times equal to now |
| FileStore.FindNote | server/file-storage.ts:88-90 | None exactly when no note has the id, otherwise the first note with it |
| FileStore.RemoveNote | server/file-storage.ts:111-117 | the kept notes are an ordered subsequence without the id, and every other note is kept |
| FileStore.MatchingNotes | server/file-storage.ts:119-122 | an ordered subsequence holding exactly the notes whose title or content contains the query, ignoring case |
| FileStore.WeeklyUploads | server/file-storage.ts:130-132 | the weekly upload count never exceeds the number of records |
| FileStore.Dashboard | server/file-storage.ts:124-146 | totals equal the record counts; the weekly figure is the count of records uploaded within the last seven days; used bytes is the sum of sizes; the limit is 3 GiB; the percentage is the size share of the limit rounded to nearest; the label is the byte formatter's |
| FileStore.TypeColor | server/file-storage.ts:188-191 | each index is given a colour of the seven-colour palette |
| FileStore.FileStorage.constructor | server/file-storage.ts:21-30 | the store holds the saved record lists |
| FileStore.FileStorage.GetFiles | server/file-storage.ts:31-34 | returns the listing by parent |
| FileStore.FileStorage.GetFile | server/file-storage.ts:36-38 | returns the first record with the id, or None |
| FileStore.FileStorage.CreateFile | server/file-storage.ts:40-56 | appends one record built from the insert shape with id max+1 (1 when empty), both times now, `isFolder` defaulting to false, and returns it |
| FileStore.FileStorage.UpdateFile | server/file-storage.ts:58-69 | an unknown id changes nothing and returns None; otherwise the first record with the id is replaced by its merge and returned, and no other position changes |
| FileStore.FileStorage.DeleteFile | server/file-storage.ts:71-77 | removes every record with the id and reports true exactly when one existed |
| FileStore.FileStorage.SearchFiles | server/file-storage.ts:79-82 | returns the case-insensitive name matches |
| FileStore.FileStorage.GetNotes | server/file-storage.ts:84-86 | returns the stored notes as they are |
| FileStore.FileStorage.GetNote | server/file-storage.ts:88-90 | returns the first note with the id, or None |
| FileStore.FileStorage.CreateNote | server/file-storage.ts:92-100 | appends one note with id max+1 and both times now, and returns it |
| FileStore.FileStorage.UpdateNote | server/file-storage.ts:102-109 | an unknown id changes nothing; otherwise the note is replaced by its merge in place |
| FileStore.FileStorage.DeleteNote | server/file-storage.ts:111-117 | removes the notes with the id and reports true exactly when one existed |
| FileStore.FileStorage.SearchNotes | server/file-storage.ts:119-122 | returns the case-insensitive title or content matches |
| FileStore.FileStorage.GetDashboardStats | server/file-storage.ts:124-146 | returns the dashboard figures of the current records |
| FileStore.FileStorage.GetFileTypeStats | server/file-storage.ts:148-162 | one row per MIME type in order of first appearance; each row's count is that type's number of records; percentage is the rounded share; colour is the palette entry of the row index; counts add up to the number of records; percentages add up to 100 within one per row |
| FileStore.FileStorage.GetRecentFiles | server/file-storage.ts:164-174 | returns the recent-files summary of the records |
| FileStore.FileStorage.GetLargestFiles | server/file-storage.ts:176-178 | returns the largest records |
| FileStore.CreatedIdsConsecutive | server/file-storage.ts:42 | when the ids so far are 1..n, the next is n+1 and is new |
| FileStore.DeletedMaxIdReissued | server/file-storage.ts:42 | deleting the newest record restores the list, and the next create issues the deleted id again |
| FileStore.DeleteRemovesOne | server/file-storage.ts:71-77 | with unique ids, deleting a record removes exactly that position |
| FileStore.DeleteLeavesChildren | server/file-storage.ts:71-77 | deleting a folder does not touch its children: the listing under its id is unchanged, though the folder itself is gone |
| FileStore.UpdateKeepsOthers | server/file-storage.ts:58-69 | an update keeps the length, every id and every other record; the updated one keeps its upload date and is stamped now |
| FileStore.SearchFilesEmptyQuery | server/file-storage.ts:79-82 | the empty query matches every record |
| FileStore.SearchFilesIgnoresCase | server/file-storage.ts:81 | lower- or upper-casing the query does not change the result |
| FileStore.FileMatchesUnguarded | server/file-storage.ts:81 | the guard on an empty original name changes no answer |
| FileStore.SearchNotesIgnoresCase | server/file-storage.ts:121 | lower- or upper-casing the query does not change the note result |
| FileStore.DashboardPercentage | server/file-storage.ts:133-134 | usage within the limit gives 0..100 percent; usage of twice the limit or more gives at least 200 |
| FileStore.WeeklyUploadsAppend | server/file-storage.ts:130-132 | appending a record raises the weekly count by one exactly when it was uploaded within the week |
| FileStore.NewFileIsWeekly | server/file-storage.ts:40-56 | a file created now counts as a weekly upload |
| FileStore.RecentFilesSpec | server/file-storage.ts:164-174 | min(limit, records) entries, newest upload first, each the summary of a stored record; the records summarised are a sub-multiset of the store, and every record left out, counted with multiplicity, was uploaded no later than each one listed, so they are the most recent |
| FileStore.LargestFilesSpec | server/file-storage.ts:176-178 | min(limit, records) entries, largest first, a sub-multiset of the records, and every record left out, counted with multiplicity, is no larger than each one listed |
| MemStore.ListFilesSpec | server/storage.ts:42-46 | called with no parent, the listing is always empty, since `undefined === null` is false; with a number it agrees with the file-backed listing |
| MemStore.NewNote | server/storage.ts:104-118 | a created note has the new id, both times now, and defaults "default", false and [] for a missing colour, pin flag or tag list |
| MemStore.SearchFilesAgree | server/storage.ts:85-91 | the in-memory file search returns exactly what the file-backed search returns |
| MemStore.SearchNotesWiden | server/storage.ts:137-144 | every note the file-backed search finds, the in-memory search finds too |
| MemStore.TagOnlyMatch | server/storage.ts:141 | a note matching only by a tag is found by the in-memory search and not by the file-backed one |
| MemStore.Category | server/storage.ts:186-190 | the category is one of five, each chosen exactly when the earlier tests fail and its own test holds |
| MemStore.NonFolders | server/storage.ts:184 | the files that are not folders, in order, all of them |
| MemStore.RelativeTime | server/storage.ts:240-250 | minutes below an hour, hours below a day, days otherwise, each count being the whole number of units elapsed |
| MemStore.RecentFilesSpec | server/storage.ts:211-223 | min(limit, non-folders) entries, each the summary of a stored file that is not a folder; the files summarised are newest first, a sub-multiset of the non-folders, and every non-folder left out, counted with multiplicity, was uploaded no later than each one listed |
| MemStore.LargestFilesSpec | server/storage.ts:225-230 | min(limit, non-folders) entries, largest first, no folder, a sub-multiset of the non-folders, and every non-folder left out, counted with multiplicity, no larger than each one listed |
| MemStore.CategoryStats | server/storage.ts:179-209 | the counting loop: one row per category in order of first appearance, with the category's count, the rounded share of all stored records and the category colour; counts add up to the files counted |
| MemStore.MemStorage.constructor | server/storage.ts:34-39 | empty maps, both counters at 1 |
| MemStore.MemStorage.GetFiles | server/storage.ts:42-46 | the stored files whose parent equals the argument |
| MemStore.MemStorage.GetFile | server/storage.ts:48-50 | `Map.get`: present exactly when the id is a key, and then that record |
| MemStore.MemStorage.CreateFile | server/storage.ts:52-66 | the id is the counter, never issued before and not stored; the counter moves up by one; the record is added under its id |
| MemStore.MemStorage.UpdateFile | server/storage.ts:68-79 | None exactly for an absent id, with nothing changed; otherwise that entry is replaced by its merge |
| MemStore.MemStorage.DeleteFile | server/storage.ts:81-83 | `Map.delete`: true exactly when the id was a key; afterwards it is gone and all other entries are unchanged |
| MemStore.MemStorage.SearchFiles | server/storage.ts:85-91 | the stored files whose name or original name contains the query, ignoring case |
| MemStore.MemStorage.GetNotes | server/storage.ts:94-98 | the stored notes, sorted by modification time newest first (a permutation of the stored notes) |
| MemStore.MemStorage.GetNote | server/storage.ts:100-102 | present exactly when the id is a key, and then that note |
| MemStore.MemStorage.CreateNote | server/storage.ts:104-118 | a fresh id from the counter, never issued before; the note with defaults is added under it |
| MemStore.MemStorage.UpdateNote | server/storage.ts:120-131 | None exactly for an absent id; otherwise the entry is replaced by its merge |
| MemStore.MemStorage.DeleteNote | server/storage.ts:133-135 | true exactly when the id was a key; afterwards it is gone and the rest is unchanged |
| MemStore.MemStorage.SearchNotes | server/storage.ts:137-144 | the stored notes matching by title, content or a tag, ignoring case |
| MemStore.MemStorage.GetDashboardStats | server/storage.ts:147-177 | the same dashboard figures as the file-backed store, over the map's values |
| MemStore.MemStorage.GetFileTypeStats | server/storage.ts:179-209 | one row per category of the non-folder files, with counts adding up to the number of non-folders |
| MemStore.MemStorage.GetRecentFiles | server/storage.ts:211-223 | the recent summary of the non-folder files, with relative times |
| MemStore.MemStorage.GetLargestFiles | server/storage.ts:225-230 | the largest non-folder files |
| Format.UnitIndexBounds | server/file-storage.ts:183 | `floor(log_1024 bytes)` is the i with 1024^i <= bytes < 1024^(i+1) |
| Format.UnitIndexUnique | server/file-storage.ts:183 | that unit index is the only one with those bounds |
| Format.FormatBytesSpec | server/file-storage.ts:180-186 | zero is "0 B"; a positive size gets the unit whose power of 1024 brackets it; the unit name exists exactly when the size is below the table's top |
| Format.RoundDiv | server/file-storage.ts:134 | `Math.round(n / d)`: within half a unit of the exact quotient, ties going up |
| Format.PercentBounds | server/file-storage.ts:134 | a rounded share is non-negative, at most 100 for a part within the whole, and at least 200 for a part of twice the whole |
| Stats.Tally | server/file-storage.ts:151-155 | the counting loop: the order is each distinct key at its first appearance; a key has a count exactly when it occurs; its count is its number of occurrences |
| Stats.CountedStep | server/file-storage.ts:153-154 | one iteration of the counting loop keeps the counts exact |
| Stats.TotalCountIsSum | server/file-storage.ts:156-161 | the rows' counts sum to the multiset counts of their keys |
| Stats.PercentagesNearShare | server/file-storage.ts:159 | the rounded percentages sum to within half a point per row of 100 times the share of the counts |
| Stats.PercentagesNear100 | server/file-storage.ts:156-161 | when the rows count every record, the percentages add up to 100 within half a point per row |
| Routes.UploadInsert | server/routes.ts:92-101 | the insert shape of a received file: its names, path, size and type, not a folder, the given parent, and the stub metadata exactly for a PDF |
| Routes.FolderParent | server/routes.ts:126 | a parent of 0 is read as none, any other is kept |
| Routes.NextIdAfterCreate | server/file-storage.ts:42 | after a create the next id is one past the created record's |
| Routes.UploadsAt | server/routes.ts:74-106 | the records saved by n iterations of the upload loop: n of them, the k-th built from the k-th file with id first+k and stamped with the k-th clock reading |
| Routes.UploadIdsFresh | server/routes.ts:74-106 | every record an upload saves gets a new id, consecutive from the next free one |
| Routes.Processed | server/routes.ts:74-106 | the loop gets through every file unless a save fails, and then stops at that file |
| Routes.Server.constructor | server/routes.ts:1-26 | the server holds the store and the contents of the upload directory |
| Routes.Server.Upload | server/routes.ts:64-113 | every received file's path is on disk afterwards, whatever the reply; no files means 400 and no record; otherwise the processed records are appended in order with consecutive new ids, each stamped when its own create ran; a failure gives 500 with the earlier records kept; success returns the created records |
| Routes.ReceivedPaths | server/routes.ts:15-24 | the paths multer writes are exactly those of the received files |
| Routes.Server.CreateEach | server/routes.ts:74-106 | the loop appends exactly the records `Uploads` describes, in order, the i-th created at the i-th clock reading |
| Routes.Server.CreateFolder | server/routes.ts:115-136 | a missing name fails and changes nothing; otherwise one folder record is appended with the next id and returned |
| Routes.Server.UpdateFile | server/routes.ts:138-150 | 404 exactly for an unknown id, with nothing changed; otherwise the merged record replaces the first with the id and is returned |
| Routes.Server.DeleteFile | server/routes.ts:152-170 | 404 for an unknown id with nothing changed; otherwise the records with the id are removed, and the stored file leaves the disk when the record has a path |
| Routes.Server.CreateNote | server/routes.ts:208-216 | a missing body fails and changes nothing; otherwise one note is appended with the next id and returned |
| Routes.Server.UpdateNote | server/routes.ts:218-230 | 404 exactly for an unknown id; otherwise the merged note replaces the first with the id |
| Routes.Server.DeleteNote | server/routes.ts:232-240 | always answers, true exactly when the id existed; the notes with the id are removed |
| Routes.Server.SearchFiles | server/routes.ts:38-49 | 400 exactly for a missing or empty query; otherwise the case-insensitive matches |
| Routes.Server.SearchNotes | server/routes.ts:182-193 | 400 exactly for a missing or empty query; otherwise the note matches |
| Routes.Server.Search | server/routes.ts:243-257 | a missing or blank query gives two empty lists; otherwise the file and note matches of the trimmed query |
| Routes.Server.RecentFiles | server/routes.ts:278-286 | the recent summary with the given limit, 5 when none is given |
| Routes.Server.LargestFiles | server/routes.ts:288-296 | the largest records with the given limit, 10 when none is given |
| Routes.BlankQueryContrast | server/routes.ts:38-49 | " " is blank, so the combined search returns nothing for it, while the file search finds every name containing a space |
| Routes.UploadRecord | server/routes.ts:92-101 | the stored upload record carries the received file's fields, both times now, not a folder, and the PDF stub only for a PDF |
| Routes.FolderRecord | server/routes.ts:115-136 | the folder record is a folder with no path, size 0, type "application/folder", the given name twice, no metadata, its parent unless 0, and a new id |
| NoteEditor.StripHashes | client/src/components/notes/note-editor.tsx:38 | `replace(/^#+/, "")`: only leading `#` are removed, and the result does not start with one |
| NoteEditor.StripHashesFacts | client/src/components/notes/note-editor.tsx:38 | a string without a leading `#` is kept; one more leading `#` changes nothing |
| NoteEditor.NormalizeTag | client/src/components/notes/note-editor.tsx:34-51 | empty exactly for blank input; otherwise starts with `#` |
| NoteEditor.NormalizedHasNoSpace | client/src/components/notes/note-editor.tsx:40-49 | a normalised tag holds no space |
| NoteEditor.NormalizeStripsHashes | client/src/components/notes/note-editor.tsx:35-38 | the stripped text is the trimmed input minus a run of leading `#`, and does not start with one |
| NoteEditor.TagTextNoSpace | client/src/components/notes/note-editor.tsx:40-49 | the camel-cased or lower-cased tag text holds no space |
| NoteEditor.NormalizeSingleWordStable | client/src/components/notes/note-editor.tsx:34-51 | for a single-word tag, normalising twice equals normalising once |
| NoteEditor.TwoWordsText | client/src/components/notes/note-editor.tsx:40-46 | two words become the first lower-cased followed by the second capitalised |
| NoteEditor.CamelCasedTag | client/src/components/notes/note-editor.tsx:34-51 | "a b" normalises to `#` + lower(a) + Capitalize(b) |
| NoteEditor.CamelRenormalized | client/src/components/notes/note-editor.tsx:48 | renormalising a camel-cased tag lower-cases it all |
| NoteEditor.CamelTagNotStable | client/src/components/notes/note-editor.tsx:34-51 | normalisation is not idempotent: a two-word tag whose second word starts with a letter changes when normalised again |
| NoteEditor.FreshTags | client/src/components/notes/note-editor.tsx:93-108 | the tags kept are exactly the candidates that are non-empty and not already on the note, in the candidates' order |
| NoteEditor.HashSeparatedTags | client/src/components/notes/note-editor.tsx:95-100 | "#a #b" adds the two normalised words as separate tags, in order |
| NoteEditor.HashCandidateTags | client/src/components/notes/note-editor.tsx:95-100 | splitting "#a #b" on `#`, trimming and dropping empty pieces yields the normalised a and b |
| NoteEditor.HashPieces | client/src/components/notes/note-editor.tsx:96-97 | "#a #b" splits on `#` into "", "a " and "b" |
| NoteEditor.DuplicateInOneInput | client/src/components/notes/note-editor.tsx:108 | the duplicate filter checks only the existing tags: "#a #a" yields the same tag twice |
| NoteEditor.Editor.constructor | client/src/components/notes/note-editor.tsx:54-59 | the editor's initial state: empty texts, "default" colour, unpinned, no tags |
| NoteEditor.Editor.Reset | client/src/components/notes/note-editor.tsx:61-76 | copies the note's fields, or restores the defaults when there is none, and clears the tag input |
| NoteEditor.Editor.AddTag | client/src/components/notes/note-editor.tsx:90-113 | blank input or eight tags already: no change. Otherwise the new non-empty, unknown normalised tags are appended, only as many as fit under eight, and the input is cleared |
| NoteEditor.Editor.RemoveTag | client/src/components/notes/note-editor.tsx:115-117 | keeps every tag different from the one removed, in order |
| NoteEditor.Editor.Save | client/src/components/notes/note-editor.tsx:78-88 | hands over data exactly when title and content are not blank: both trimmed, colour, pin flag and tags as they are |
| NoteEditor.Editor.DialogClose | client/src/components/notes/note-editor.tsx:125-132 | closing with non-blank title and content saves instead; otherwise the open state is passed on |
| NoteEditor.AddedTags | client/src/components/notes/note-editor.tsx:108-111 | the added tags keep the total at eight or below, leave the existing tags first, and are non-empty, new and start with `#` |
| NoteEditor.RemovedTag | client/src/components/notes/note-editor.tsx:115-117 | the removed tag is gone, the rest is an ordered subsequence, and every other tag stays |
| Utils.FormatFileBytesUnits | client/src/lib/utils.ts:8-14 | zero is "0 B"; each range of powers of 1024 gets B, KB, MB or GB; from 1 TiB up the unit is missing |
| Utils.RelativeAge | client/src/lib/utils.ts:16-29 | "Just now" below a minute, then minutes below an hour, hours below a day, days below a week, each with its whole count; older dates go to the locale date |
| Utils.RelativeAgeAgreesWithServer | client/src/lib/utils.ts:16-29 | between a minute and a week the client label agrees with the in-memory store's |
| Utils.EmojiInjective | client/src/lib/utils.ts:31-41 | distinct icons have distinct emoji |
| Utils.FolderOnlyForFolderType | client/src/lib/utils.ts:31-51 | the folder icon and the yellow badge go exactly to "application/folder" |
| Utils.IconAgreesWithBadge | client/src/lib/utils.ts:31-51 | icon and badge agree for image, video, audio, document and folder types; a red badge gets the page icon; a grey badge gets the page, spreadsheet or presentation icon |
| Utils.PdfSharesFallbackIcon | client/src/lib/utils.ts:31-51 | a PDF shows the same icon as an unknown type, but a red badge rather than grey |
| Utils.FileTypeColor | client/src/lib/utils.ts:43-51 | the first matching rule picks the class: blue for `image/`, red for the PDF type, purple for `video/`, green for `audio/`, orange for a type containing "document", grey otherwise; the yellow class is given to the folder type and to nothing else |
| Utils.BadgeClassInjective | client/src/lib/utils.ts:44-50 | the seven badge classes are pairwise different |
| Utils.NoteColorClass | client/src/lib/utils.ts:53-63 | the border class is always one of the six in the map |
| Utils.NoteColorClassDistinct | client/src/lib/utils.ts:53-63 | the slate border goes exactly to "default" and unknown colours; known colours get distinct borders |
| Utils.TruncateText | client/src/lib/utils.ts:65-68 | short text is kept; longer text is its first maxLength characters followed by "..." |
| Utils.TruncateIdempotent | client/src/lib/utils.ts:65-68 | truncating twice equals truncating once |
| NotesPage.FilterNotes | client/src/pages/notes.tsx:122-126 | nothing before the notes load; otherwise an ordered subsequence of notes that pass the colour and pin filters |
| NotesPage.FilterNotesMembers | client/src/pages/notes.tsx:122-126 | a loaded note is shown exactly when it passes the filters |
| NotesPage.FilterAllShowsAll | client/src/pages/notes.tsx:122-126 | with both filters on "all" every note is shown, in order |
| NotesPage.PinnedNarrows | client/src/pages/notes.tsx:124-125 | the pinned filter shows the colour-filtered notes without the unpinned ones |
| NotesPage.FilterColorsHaveBorders | client/src/pages/notes.tsx:128-136 | every colour offered by the filter has a border class; "all" is not a colour |
| NotesPage.TogglePin | client/src/pages/notes.tsx:115-120 | an update of the note's id carrying only the flipped pin flag |
| NotesPage.TogglePinApplied | client/src/pages/notes.tsx:115-120 | applied, the toggle flips the flag and keeps everything else; toggling twice restores a stored flag |
| NotesPage.AsUpdate | client/src/pages/notes.tsx:49-56 | `{ id, ...noteData }` carries every editor field |
| NotesPage.AsUpdateRestores | client/src/pages/notes.tsx:49-56 | sending a note's own data back changes only its modification time |
| NotesPage.Page.constructor | client/src/pages/notes.tsx:12-13 | nothing selected, editor closed |
| NotesPage.Page.NewNote | client/src/pages/notes.tsx:93-96 | nothing selected, editor open |
| NotesPage.Page.EditNote | client/src/pages/notes.tsx:98-101 | the note selected, editor open |
| NotesPage.Page.SaveNote | client/src/pages/notes.tsx:103-109 | an update of the selected note exactly when one is selected, a create otherwise |
| NotesPage.Page.SaveSucceeded | client/src/pages/notes.tsx:29-33 | after a successful save the editor is closed and nothing is selected |
| Seqs.FilterMembers | server/file-storage.ts:33 | `filter` keeps exactly the elements that pass |
| Seqs.FilterIsSubseq | server/file-storage.ts:33 | `filter` keeps the order |
| Seqs.Slice | server/file-storage.ts:167 | `slice(0, limit)`: a prefix of min(limit, length) elements, or a negative limit counted from the end |
| Seqs.SortDescSpec | server/storage.ts:94-98 | the descending sort is sorted and a permutation |
| Seqs.TopBySpec | server/file-storage.ts:176-178 | sort descending then slice: min(limit, n) elements, sorted, a sub-multiset, and every element left out, counted with multiplicity, has a key no larger than each kept |
| Seqs.Distinct | server/storage.ts:203 | the keys of the counting `Map`: each key once, in order of first appearance |
| Seqs.SumCountsDistinct | server/file-storage.ts:156-161 | the counts of the distinct keys add up to the number of keys |
| Text.LowerAt | server/file-storage.ts:81 | `toLowerCase` maps each character and keeps the length |
| Text.LowerIdempotent | server/file-storage.ts:81 | lower-casing twice equals lower-casing once |
| Text.ContainsAt | server/file-storage.ts:81 | `includes` holds exactly when the text occurs at some position |
| Text.BlankIffAllSpace | client/src/components/notes/note-editor.tsx:91 | `!s.trim()` holds exactly when every character is white space |
| Text.TrimEnds | client/src/components/notes/note-editor.tsx:35 | trimmed text neither starts nor ends with white space |
| Text.SplitCharJoin | client/src/components/notes/note-editor.tsx:96-97 | joining the pieces of `split("#")` with `#` restores the input |
| Text.SplitCharPieces | client/src/components/notes/note-editor.tsx:96-97 | no piece of `split("#")` holds a `#` |
| Text.SplitSpacesNoSpace | client/src/components/notes/note-editor.tsx:41-42 | no piece of `split(/\s+/)` holds white space |

## Left out

- Persistence: the JSON files, `ensureDataFiles`, `readJson` and `writeJson`. Each file-backed
  operation is modelled on the list it would read, and what it writes back is the new `files` or
  `notes` field.
- HTTP: Express, multer, static serving, the server start-up in `server/index.ts`, and
  status codes beyond the four kinds of `Reply`. Bodies the routes do not validate are typed as
  `FileUpdate` or `NoteUpdate`.
- `Routes.Server.Upload`: the random names multer gives stored files are inputs (`Received`). An
  exception from `createFile` is the `failAt` parameter.
- The thin pass-through routes (list, get, stats, file types) add nothing to the store calls they
  forward, so they are not modelled separately. Ids and parent ids are integers: `Number(...)` of a
  parameter gives NaN for text that is not a number (such as `"12abc"`) and a fraction for `"1.5"`;
  neither value is modelled, and NaN would match no record. The upload route's string parent `"0"` is truthy and kept as a number; this case
  is not modelled.
- Floating-point rendering: `toFixed`, `parseFloat`, `Math.log` and `Math.pow` are not modelled.
  `ByteLabel` records the unit index and the unit, not the decimal digits. `Math.round` of a
  quotient is modelled exactly on rationals (`Format.RoundDiv`).
- Locale formatting: `toLocaleString` and `toLocaleDateString` are the `LocaleDate(date)` label.
  "A week ago", `weekAgo.setDate(weekAgo.getDate() - 7)`, moves the local calendar date back seven days;
  it is taken as 7 × 86,400,000 ms, which is one hour off across a daylight-saving change. Clocks are
  the `now` parameter, and one reading per created record (`times`) in the upload route.
- Unicode: lower and upper case are ASCII only, and `\s` is ASCII white space plus no-break space.
- `Utils.TruncateText`: lengths and cuts count characters (Unicode scalar values), where JavaScript's
  `length` and `substring` count UTF-16 code units. Text with characters outside the Basic
  Multilingual Plane (emoji) is cut at a different place, and the source can split a surrogate pair.
- `FileStore.FileStorage.GetFileTypeStats`: the percentages are stated as bounds (the sum lies
  within one point per row of 100) and each row's rounding as `Math.round`. The decimal value is not
  stated.
- `FileStore.FileStorage.GetFileTypeStats`: the source counts into a plain object and lists it with
  `Object.entries`, and the model counts into a map in order of first appearance. Two kinds of MIME
  type behave differently in the source. A type named after an inherited property ("constructor",
  "toString", "__proto__") gets no row and its records are not counted, so there the counts add up
  to fewer than the records. Integer-like type names ("5") are listed first, in numeric order, and
  so take the first palette colours. The model gives every type its own row in first-appearance order.
- `MemStore.MemStorage.GetFileTypeStats`: the category rows come in order of first appearance, as
  a JavaScript `Map` keeps them. The colour table's prototype keys (`colors["constructor"]`) cannot
  arise, because the category is always one of five.
- `Utils.NoteColorClass`: the object's prototype keys (`colorMap["toString"]`) are treated as
  unknown colours.
- `NoteEditor.Editor.AddTag` and `NoteEditor.Editor.RemoveTag`: with no tag list (a note loaded
  without `tags`), the source throws. The model changes nothing instead.
- `NoteEditor.CamelTagNotStable` and `NoteEditor.HashSeparatedTags` are stated for all words of the
  right shape, rather than for one literal input.
- `FileStore.Dashboard`: `size || 0` is modelled as the size itself; a record without a size is not
  modelled.
- The client's toasts, query-cache invalidation, the delete-note mutation and `cn`: these are UI side
  effects or calls into libraries outside this model.
- The editor's colour palette (`noteColors` in `note-editor.tsx`) is not modelled; only the page's
  filter choices are.
- Concurrency between requests is not modelled: each handler runs to completion on its own.
