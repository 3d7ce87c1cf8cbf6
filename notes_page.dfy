/** The notes page: the colour and pin filter over the loaded notes, and the page state (which note is
    selected and whether the editor is open) with the requests its handlers send. */
module NotesPage {
  import opened Schema
  import opened Seqs
  import Utils

  /** The colour filter's choices: "all", then the note colours. */
  const FilterColors: seq<string> := ["all", "default", "red", "blue", "green", "yellow", "purple"]

  /** A note passes the filters when its colour is the chosen one (or any colour is allowed) and, when
      only pinned notes are asked for, it is pinned. A note without a colour or a pin flag passes only
      the filters that do not look at them. */
  predicate Kept(filterColor: string, filterType: string, note: Note) {
    (filterColor == "all" || note.color == Some(filterColor)) &&
    (filterType != "pinned" || note.isPinned == Some(true))
  }

  function KeepTest(filterColor: string, filterType: string): Note -> bool {
    (note: Note) => Kept(filterColor, filterType, note)
  }

  /** filteredNotes: the loaded notes that pass the filters, in their order; nothing while the notes are
      not loaded. */
  function FilterNotes(notes: Option<seq<Note>>, filterColor: string, filterType: string): (r: seq<Note>)
    ensures notes.None? ==> r == []
    ensures notes.Some? ==> IsSubseq(r, notes.value)
    ensures forall i :: 0 <= i < |r| ==> Kept(filterColor, filterType, r[i])
  {
    if notes.None? then []
    else
      FilterIsSubseq(notes.value, KeepTest(filterColor, filterType));
      Filter(notes.value, KeepTest(filterColor, filterType))
  }

  /** A loaded note is shown exactly when it passes the filters. */
  lemma FilterNotesMembers(notes: seq<Note>, filterColor: string, filterType: string, note: Note)
    ensures note in FilterNotes(Some(notes), filterColor, filterType) <==>
      note in notes && Kept(filterColor, filterType, note)
  {
    var r := FilterNotes(Some(notes), filterColor, filterType);
    FilterMembers(notes, KeepTest(filterColor, filterType));
    if note in r {
      var i :| 0 <= i < |r| && r[i] == note;
    }
    if note in notes && Kept(filterColor, filterType, note) {
      var i :| 0 <= i < |notes| && notes[i] == note;
      assert KeepTest(filterColor, filterType)(notes[i]);
    }
  }

  /** With both filters at "all" every loaded note is shown, in order. */
  lemma FilterAllShowsAll(notes: seq<Note>)
    ensures FilterNotes(Some(notes), "all", "all") == notes
  {
    FilterKeepsAll(notes, KeepTest("all", "all"));
  }

  /** Asking for pinned notes only ever hides notes: what is shown is the colour-filtered list with the
      unpinned notes taken out. */
  lemma PinnedNarrows(notes: seq<Note>, filterColor: string)
    ensures FilterNotes(Some(notes), filterColor, "pinned") ==
      Filter(FilterNotes(Some(notes), filterColor, "all"), (note: Note) => note.isPinned == Some(true))
  {
    var pinned := (note: Note) => note.isPinned == Some(true);
    var both := KeepTest(filterColor, "pinned");
    var colour := KeepTest(filterColor, "all");
    FilterBoth(notes, colour, pinned, both);
  }

  /** Every colour the filter offers besides "all" has its own card border, and "all" is not a colour. */
  lemma FilterColorsHaveBorders()
    ensures forall k :: 1 <= k < |FilterColors| ==> FilterColors[k] in Utils.NoteBorders
    ensures "all" !in Utils.NoteBorders
  {
  }

  /** What the page asks the server to do with a note. */
  datatype NoteRequest = CreateNote(data: InsertNote) | UpdateNote(id: int, changes: NoteUpdate)

  /** handleTogglePin: an update of the note's id that carries the flipped pin flag and nothing else (a
      note without the flag counts as unpinned). */
  function TogglePin(note: Note): (r: NoteRequest)
    ensures r.UpdateNote? && r.id == note.id
    ensures r.changes == NoNoteChanges.(isPinned := Some(!OrElse(note.isPinned, false)))
  {
    UpdateNote(note.id, NoteUpdate(None, None, None, Some(!OrElse(note.isPinned, false)), None))
  }

  /** Applied by the server, the toggle flips the pin flag and leaves everything else but the
      modification time alone; toggling twice restores a stored flag. */
  lemma TogglePinApplied(note: Note, t1: int, t2: int)
    ensures var once := MergeNote(note, TogglePin(note).changes, t1);
      once == note.(isPinned := Some(!OrElse(note.isPinned, false)), updatedAt := t1) &&
      (note.isPinned.Some? ==> MergeNote(once, TogglePin(once).changes, t2) == note.(updatedAt := t2))
  {
    var once := MergeNote(note, TogglePin(note).changes, t1);
    assert once.isPinned == Some(!OrElse(note.isPinned, false));
  }

  /** The data the editor hands over, as the update that `{ id, ...noteData }` sends. */
  function AsUpdate(data: InsertNote): (u: NoteUpdate)
    ensures u.title == Some(data.title) && u.content == Some(data.content)
    ensures u.color == data.color && u.isPinned == data.isPinned && u.tags == data.tags
  {
    NoteUpdate(Some(data.title), Some(data.content), data.color, data.isPinned, data.tags)
  }

  /** Saving the update made from a note's own data changes nothing but the modification time. */
  lemma AsUpdateRestores(note: Note, data: InsertNote, now: int)
    requires data == InsertNote(note.title, note.content, note.color, note.isPinned, note.tags)
    ensures MergeNote(note, AsUpdate(data), now) == note.(updatedAt := now)
  {
  }

  /** The page's own state: the note being edited, if any, and whether the editor is open. */
  class Page {
    var selectedNote: Option<Note>
    var showEditor: bool

    constructor ()
      ensures selectedNote == None && !showEditor
    {
      selectedNote, showEditor := None, false;
    }

    /** handleNewNote: nothing selected, editor open. */
    method NewNote()
      modifies this
      ensures selectedNote == None && showEditor
    {
      selectedNote, showEditor := None, true;
    }

    /** handleEditNote: the note selected, editor open. */
    method EditNote(note: Note)
      modifies this
      ensures selectedNote == Some(note) && showEditor
    {
      selectedNote, showEditor := Some(note), true;
    }

    /** handleSaveNote: an update of the selected note when there is one, a new note otherwise. The page
        state is left to the request's success callback. */
    method SaveNote(data: InsertNote) returns (request: NoteRequest)
      ensures selectedNote.Some? <==> request.UpdateNote?
      ensures selectedNote.Some? ==> request == UpdateNote(selectedNote.value.id, AsUpdate(data))
      ensures selectedNote.None? ==> request == CreateNote(data)
    {
      if selectedNote.Some? {
        request := UpdateNote(selectedNote.value.id, AsUpdate(data));
      } else {
        request := CreateNote(data);
      }
    }

    /** The success callback of a create or an update: the editor closes and the selection is cleared. */
    method SaveSucceeded()
      modifies this
      ensures selectedNote == None && !showEditor
    {
      selectedNote, showEditor := None, false;
    }
  }
}
