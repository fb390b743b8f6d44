/**
 * The editor of the active note (src/components/NoteEditor.tsx): a local
 * title/content buffer, loaded from the note it is given and reloaded whenever
 * that note changes, and the edits it hands back as whole notes.
 */
module NoteEditor {
  import opened Types
  import App

  /** `{ ...note, title }`: the note with its title replaced (NoteEditor.tsx:20). */
  function WithTitle(note: Note, title: string): (r: Note)
    ensures r.title == title
    ensures r.id == note.id && r.content == note.content && r.folderId == note.folderId
  {
    note.(title := title)
  }

  /** `{ ...note, content }`: the note with its content replaced (NoteEditor.tsx:25). */
  function WithContent(note: Note, content: string): (r: Note)
    ensures r.content == content
    ensures r.id == note.id && r.title == note.title && r.folderId == note.folderId
  {
    note.(content := content)
  }

  /**
   * An edit of a stored note, handed to the workspace's `updateNote`, keeps the
   * workspace consistent, is found again under the note's id, and leaves every
   * other note as it was.
   */
  lemma EditIsStored(notes: seq<Note>, folders: seq<Folder>, open: seq<string>,
                     active: Option<string>, note: Note, edited: Note)
    requires App.Consistent(notes, folders, open, active)
    requires note in notes
    requires edited == WithTitle(note, edited.title) || edited == WithContent(note, edited.content)
    ensures App.Consistent(App.ReplaceNote(notes, edited), folders, open, active)
    ensures App.NoteById(App.ReplaceNote(notes, edited), note.id) == Some(edited)
    ensures forall i :: 0 <= i < |notes| && notes[i].id != note.id ==> App.ReplaceNote(notes, edited)[i] == notes[i]
  {
  }

  /** The component's `note` prop and its two `useState` buffer fields (NoteEditor.tsx:9-11). */
  class Editor {
    var note: Note
    var title: string
    var content: string

    /** The buffer shows the committed fields of the note. */
    ghost predicate InSync()
      reads this
    {
      title == note.title && content == note.content
    }

    /** Mounting: the buffer starts as the note's title and content (NoteEditor.tsx:9-11). */
    constructor (note: Note)
      ensures this.note == note && InSync()
    {
      this.note := note;
      title := note.title;
      content := note.content;
    }

    /** A new `note` prop, followed by the `useEffect` that reloads the buffer (NoteEditor.tsx:13-16). */
    method ReceiveNote(newNote: Note)
      modifies this
      ensures note == newNote && InSync()
    {
      note := newNote;
      title := note.title;
      content := note.content;
    }

    /** `handleTitleChange`: the buffer takes the value and the edited note is returned for `onUpdateNote` (NoteEditor.tsx:18-21). */
    method HandleTitleChange(value: string) returns (emitted: Note)
      modifies this
      ensures title == value && content == old(content) && note == old(note)
      ensures emitted == WithTitle(note, value)
    {
      title := value;
      emitted := WithTitle(note, value);
    }

    /** `handleContentChange`: the buffer takes the value and the edited note is returned for `onUpdateNote` (NoteEditor.tsx:23-26). */
    method HandleContentChange(value: string) returns (emitted: Note)
      modifies this
      ensures content == value && title == old(title) && note == old(note)
      ensures emitted == WithContent(note, value)
    {
      content := value;
      emitted := WithContent(note, value);
    }
  }

  /**
   * One title edit end to end: the editor shows the active note, the user
   * types `value`, the emitted note goes to the workspace's `updateNote`, and
   * the workspace hands the editor its active note again, which triggers the
   * resync (NoteEditor.tsx:13-21, App.tsx:66-68, App.tsx:106-108). The buffer then
   * holds the entered value and agrees with the stored note.
   */
  method TitleEditRoundTrip(ws: App.Workspace, editor: Editor, value: string)
    requires ws.Valid()
    requires ws.activeNoteId.Some? && editor.note in ws.notes && editor.note.id == ws.activeNoteId.value
    modifies ws, editor
    ensures ws.Valid()
    ensures ws.notes == App.ReplaceNote(old(ws.notes), WithTitle(old(editor.note), value))
    ensures ws.folders == old(ws.folders) && ws.openNoteIds == old(ws.openNoteIds) && ws.activeNoteId == old(ws.activeNoteId)
    ensures editor.note == WithTitle(old(editor.note), value) && editor.note in ws.notes
    ensures editor.InSync() && editor.title == value && editor.content == old(editor.note).content
  {
    var emitted := editor.HandleTitleChange(value);
    EditIsStored(ws.notes, ws.folders, ws.openNoteIds, ws.activeNoteId, editor.note, emitted);
    ws.UpdateNote(emitted);
    var shown := ws.ActiveNote();
    assert shown == Some(emitted) by {
      assert App.UniqueNoteIds(ws.notes);
      assert App.NoteById(ws.notes, emitted.id) == Some(emitted);
    }
    editor.ReceiveNote(shown.value);
  }
}
