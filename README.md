# A verified model of a note-taking workspace

This project models the state logic of a small single-page note-taking
application. The user creates notes and folders, files notes under folders,
opens notes in tabs and edits the active note. There are three parts.

- **The workspace** (`app.dfy`, module `App`): the notes, the folders, the
  ordered list of open tab ids and the optional active tab id, held by the
  application root. The class `Workspace` has these four fields. Its methods
  are the handlers `addNote`, `deleteNote`, `addFolder`, `updateFolder`,
  `deleteFolder`, `openNoteInNewTab`, `closeNote` and `updateNote`, plus the
  tab-click select. Each method states the whole new state. The pure functions
  beside the class (`Without`, `FirstOther`, `RemoveNote`, `ReplaceNote`,
  `Reparent`, ...) stand for the `filter`/`map`/`find` expressions the handlers
  build their new values from. The predicate `Consistent` is the invariant.
  Note ids and folder ids are unique and non-empty. Every note is filed under
  null or a live folder. Open tabs are distinct ids of existing notes. The
  active id is null or an open tab. A lemma per handler proves that the
  handler keeps it.
- **The sidebar** (`sidebar.dfy`, module `Sidebar`): the view-local set of
  expanded folders and the folder being renamed (class `SidebarView`), the
  rename record handed to the workspace, and the grouping of notes into one
  list per folder and a root list.
- **The note editor** (`note_editor.dfy`, module `NoteEditor`): the local
  title/content buffer (class `Editor`), which is loaded from the note it is
  given and reloaded when that note changes, and the edited notes it hands back.

`types.dfy` holds the `Note` and `Folder` records and an `Option` type for
`string | null`. `array_ops.dfy` gives JavaScript's `Array.prototype.filter`,
`map` and `find` as recursive functions on sequences, with their lemmas. One
of these lemmas is the basis of the tab tie-break rule: `find` is the head of
`filter`.

The tie-break rule: when the active tab is closed or its note deleted, the
source picks `openNoteIds.find(noteId => noteId !== id) || null`. This scans
the list as it was before the removal. `App.FirstOtherIsHeadOfRemaining`
proves that, because open ids are never empty strings, this equals the head of
the list after removal. `DeleteNote` and `CloseNote` state their result in
that second form.

Fresh ids are parameters. The source makes them with `Date.now().toString()`.
The model requires them to be non-empty and unused in their own collection.
Callbacks a parent hands to a view (`onUpdateNote`, `onUpdateFolder`)
become out-parameters holding the record the view emits. The lemmas
`NoteEditor.EditIsStored` and `Sidebar.RenameRenamesOnlyThatFolder` connect
those records to the workspace functions that receive them, and the method
`NoteEditor.TitleEditRoundTrip` runs one edit through the editor, the
workspace and the resync.

## Model

| member | source | states |
|---|---|---|
| `App.Workspace.constructor` | src/App.tsx:8-11 | the workspace starts with no notes, no folders, no open tab and no active id, and is consistent |
| `App.Workspace.AddNote` | src/App.tsx:13-22 | appends exactly one note with the fresh id, title "New Note", empty content and the given folder; earlier notes and the folders are unchanged; the new id is appended to the tabs and becomes active; the invariant is kept |
| `App.Workspace.DeleteNote` | src/App.tsx:24-30 | removes the note from the notes and from the tabs; if it was active, the new active id is the first remaining tab or null; otherwise the active id is unchanged; folders untouched; invariant kept |
| `App.Workspace.AddFolder` | src/App.tsx:32-38 | appends one folder with the fresh id and the name "New Folder"; nothing else changes; invariant kept |
| `App.Workspace.UpdateFolder` | src/App.tsx:40-44 | the folders become the id-matching replacement; notes, tabs and active id are unchanged; invariant kept |
| `App.Workspace.DeleteFolder` | src/App.tsx:46-50 | removes the folder and re-parents its notes to the root; tabs and active id are unchanged; invariant kept |
| `App.Workspace.OpenNoteInNewTab` | src/App.tsx:52-57 | an already open id leaves the tabs unchanged, a new id is appended at the end; in both cases the id becomes active; invariant kept |
| `App.Workspace.CloseNote` | src/App.tsx:59-64 | removes the id from the tabs; if it was active the new active id is the first remaining tab or null, otherwise unchanged; notes and folders unchanged; invariant kept |
| `App.Workspace.UpdateNote` | src/App.tsx:66-68 | the notes become the id-matching replacement; folders, tabs and active id unchanged; invariant kept |
| `App.Workspace.SelectTab` | src/App.tsx:87-91 | clicking an open tab makes it active and changes nothing else; invariant kept |
| `App.Workspace.ActiveNote` | src/App.tsx:106-108 | when an id is active, the lookup for the editor finds a note with that id (the non-null assertion `!` is safe); when none is, no editor is shown |
| `App.NewNote` | src/App.tsx:14-19 | the new note has the given id and folder, title "New Note" and empty content |
| `App.NewFolder` | src/App.tsx:33-36 | the new folder has the given id and the name "New Folder" |
| `App.Without` | src/App.tsx:26 | the remaining tabs are exactly the open ids other than the removed one |
| `App.OrNull` | src/App.tsx:28 | `x \|\| null` yields a value exactly when there is one and it is not the empty string, and then it is that value |
| `App.ActiveAfterRemoving` | src/App.tsx:27-29 | if the removed id was not active the active id is kept; if it was, the result is null exactly when no other id is open, otherwise an open id other than the removed one, and with non-empty ids it is what `find(...) \|\| null` picks |
| `App.FirstOther` | src/App.tsx:28 | the `find` result is absent exactly when every open id is the removed one, and otherwise an open id other than it |
| `App.OpenTab` | src/App.tsx:53-55 | the tabs after opening contain the old tabs and the id and nothing else, and begin with the old tabs, unchanged |
| `App.RemoveNote` | src/App.tsx:25 | the remaining notes are exactly those whose id differs from the deleted one |
| `App.ReplaceNote` | src/App.tsx:67 | same length; each note with the matching id is replaced by the update, every other note is kept at its position |
| `App.Reparent` | src/App.tsx:49 | same length; each note filed under the deleted folder keeps id, title and content and gets folder null; every other note is kept at its position |
| `App.RemoveFolder` | src/App.tsx:47 | the remaining folders are exactly those whose id differs from the deleted one |
| `App.ReplaceFolder` | src/App.tsx:41-43 | same length; the folder with the matching id is replaced, every other folder is kept at its position |
| `App.NoteById` | src/App.tsx:108 | the lookup finds nothing exactly when no note has the id; what it finds is a present note with that id |
| `App.FirstOtherIsHeadOfRemaining` | src/App.tsx:26-28 | with non-empty ids, `find` over the tabs before removal followed by `\|\| null` equals the first tab after removal, or null |
| `App.ActiveAfterRemovingIsOpen` | src/App.tsx:27-29 | the reassigned active id is one of the remaining tabs, and it is null only if no tab remains |
| `App.WithoutAbsent` | src/App.tsx:60 | removing an id that is not open leaves the tabs unchanged |
| `App.WithoutRemovesOnePosition` | src/App.tsx:60 | removing a tab from a list without repetitions takes out exactly its position and keeps the order of the rest |
| `App.WithoutKeepsDistinct` | src/App.tsx:26 | removal keeps the tabs free of repetitions |
| `App.OpenTabProperties` | src/App.tsx:53-55 | opening never creates a duplicate tab; opening the same id twice is the same as once; an open id leaves the list unchanged, a new one is appended |
| `App.RemoveNoteIds` | src/App.tsx:25 | deleting a note removes exactly its id from the set of note ids |
| `App.RemoveNoteKeepsUnique` | src/App.tsx:25 | the remaining notes still have unique ids |
| `App.RemoveFolderIds` | src/App.tsx:47 | deleting a folder removes exactly its id from the set of folder ids |
| `App.RemoveFolderKeepsUnique` | src/App.tsx:47 | the remaining folders still have unique ids |
| `App.ReplaceNoteKeepsIds` | src/App.tsx:67 | an update keeps the set of note ids and their uniqueness |
| `App.ReplaceNoteAbsent` | src/App.tsx:67 | an update whose id matches no note is a no-op |
| `App.ReplaceNoteThenFind` | src/App.tsx:67 | after updating a present note, looking up its id finds the update |
| `App.ReplaceFolderKeepsIds` | src/App.tsx:41-43 | a folder update keeps the set of folder ids and their uniqueness |
| `App.ReplaceFolderAbsent` | src/App.tsx:41-43 | a folder update whose id matches no folder is a no-op |
| `App.ReparentProperties` | src/App.tsx:48-49 | re-parenting keeps every note id and their uniqueness, and afterwards no note is filed under the deleted folder |
| `App.AppendNoteKeepsConsistent` | src/App.tsx:13-20 | appending a note with a fresh non-empty id and a valid folder keeps the invariant, and the fresh id is not yet open |
| `App.OpenTabKeepsConsistent` | src/App.tsx:52-57 | opening an existing note's tab and making it active keeps the invariant |
| `App.AddNoteKeepsConsistent` | src/App.tsx:13-22 | the whole `addNote` appends the tab (it cannot be open yet) and keeps the invariant |
| `App.DeleteNoteKeepsConsistent` | src/App.tsx:24-30 | `deleteNote` keeps the invariant |
| `App.CloseNoteKeepsConsistent` | src/App.tsx:59-64 | `closeNote` keeps the invariant |
| `App.CloseNotOpenIsNoop` | src/App.tsx:59-64 | closing an id that is not open leaves the tabs and the active id unchanged |
| `App.UpdateNoteKeepsConsistent` | src/App.tsx:66-68 | `updateNote` with a note filed under null or a live folder keeps the invariant |
| `App.AddFolderKeepsConsistent` | src/App.tsx:32-38 | `addFolder` with a fresh id keeps the invariant |
| `App.UpdateFolderKeepsConsistent` | src/App.tsx:40-44 | `updateFolder` keeps the invariant |
| `App.DeleteFolderKeepsConsistent` | src/App.tsx:46-50 | `deleteFolder` keeps the invariant; in particular no note is left referring to the deleted folder |
| `App.SelectTabKeepsConsistent` | src/App.tsx:91 | selecting an open tab keeps the invariant |
| `App.ActiveNoteExists` | src/App.tsx:106-108 | under the invariant the active id is non-empty and names an existing note |
| `App.CloseInactiveTabExample` | src/App.tsx:59-64 | tabs [n1, n2, n3] with n3 active: closing n1 leaves [n2, n3] with n3 active |
| `App.CloseActiveTabExample` | src/App.tsx:59-64 | tabs [n1, n2, n3] with n2 active: closing n2 leaves [n1, n3] and makes n1 active |
| `App.DeleteOnlyNoteExample` | src/App.tsx:24-30 | deleting the only note, open and active, leaves no note, no tab and no active id |
| `App.DeleteFolderExample` | src/App.tsx:46-50 | deleting a folder holding n1 and n2 moves both to the root and leaves the root note n3 as it was |
| `App.ReopenTabExample` | src/App.tsx:52-57 | after adding n1 and n2, clicking the tab n1 and opening n2 again, the tabs are still [n1, n2] and n2 is active |
| `ArrayOps.Filter` | src/App.tsx:25 | `filter` keeps exactly the elements that pass the test, and never lengthens the list |
| `ArrayOps.Map` | src/App.tsx:49 | `map` keeps the length and applies the function position by position |
| `ArrayOps.Find` | src/App.tsx:28 | `find` returns nothing exactly when no element passes, and otherwise an element that passes |
| `ArrayOps.FindFirst` | src/App.tsx:108 | `find` returns the first element that passes |
| `ArrayOps.FindIsHeadOfFilter` | src/App.tsx:28 | `find` with a test equals the head of `filter` with that test |
| `ArrayOps.FilterAppend` | src/components/Sidebar.tsx:147 | filtering keeps the relative order of what it keeps: the filter of a concatenation is the concatenation of the filters |
| `ArrayOps.FilterKeepsAll` | src/App.tsx:60 | a filter that rejects nothing returns its input unchanged |
| `ArrayOps.FilterKeepsPairwise` | src/App.tsx:25 | a filter keeps every property that relates each pair of elements in order, such as uniqueness of ids |
| `ArrayOps.FilterKeepsDistinct` | src/App.tsx:26 | a filter of a list without repetitions has none either |
| `Sidebar.Toggled` | src/components/Sidebar.tsx:33-43 | the toggled folder is expanded exactly when it was not; no other member of the set changes |
| `Sidebar.ToggleTwice` | src/components/Sidebar.tsx:33-43 | toggling the same folder twice restores the expanded set |
| `Sidebar.NotesFiledUnder` | src/components/Sidebar.tsx:147 | a group holds exactly the notes whose folder id is the given one, and is no longer than the notes |
| `Sidebar.FolderNotes` | src/components/Sidebar.tsx:147 | a folder's list holds exactly the notes whose folder id is that folder's id |
| `Sidebar.RootNotes` | src/components/Sidebar.tsx:152 | the root list holds exactly the notes whose folder id is null |
| `Sidebar.ListedUnder` | src/components/Sidebar.tsx:145-148 | a folder's notes are listed only while the folder is expanded, and then exactly those filed under it |
| `Sidebar.NotesFiledUnderAppend` | src/components/Sidebar.tsx:147 | grouping keeps the order of the notes: the group of a concatenation is the concatenation of the groups |
| `Sidebar.NotesFiledUnderSingle` | src/components/Sidebar.tsx:152 | a single note is listed in the group its folder id names and in no other |
| `Sidebar.EachNoteInExactlyOneGroup` | src/components/Sidebar.tsx:145-152 | with unique folder ids and no dangling folder reference, each note is in the root list exactly when its folder id is null, and otherwise in the list of exactly one folder |
| `Sidebar.AddNoteTargetsAreValid` | src/components/Sidebar.tsx:83-123 | the sidebar's "add note" buttons pass null or the id of a listed folder, so the folder-reference invariant holds for `addNote` |
| `Sidebar.RenamedFolder` | src/components/Sidebar.tsx:46 | the rename record has the folder's id and the new name |
| `Sidebar.RenameRenamesOnlyThatFolder` | src/components/Sidebar.tsx:45-48 | passing the rename record to `updateFolder` renames the folder with that id, leaves every other folder at its position and keeps the folder ids |
| `Sidebar.SidebarView.constructor` | src/components/Sidebar.tsx:30-31 | no folder is expanded and none is being renamed at first |
| `Sidebar.SidebarView.ToggleFolder` | src/components/Sidebar.tsx:33-43 | the expanded set becomes the toggled set; the rename target is unchanged |
| `Sidebar.SidebarView.StartRename` | src/components/Sidebar.tsx:130 | the rename button makes that folder the rename target; the expanded set is unchanged |
| `Sidebar.SidebarView.HandleFolderRename` | src/components/Sidebar.tsx:45-48 | emits a folder with the same id and the new name, then clears the rename target to null; the expanded set is unchanged |
| `NoteEditor.WithTitle` | src/components/NoteEditor.tsx:20 | the edited note has the new title and the same id, content and folder |
| `NoteEditor.WithContent` | src/components/NoteEditor.tsx:25 | the edited note has the new content and the same id, title and folder |
| `NoteEditor.EditIsStored` | src/components/NoteEditor.tsx:18-26 | an edit of a stored note, passed to `updateNote`, keeps the workspace consistent, is found again under the note's id, and leaves every other note unchanged |
| `NoteEditor.TitleEditRoundTrip` | src/components/NoteEditor.tsx:13-21 | a title edit sent to `updateNote` and handed back as the active note leaves the workspace consistent, stores the edit in place of the note, keeps the folders, the tabs and the active id, and leaves the buffer in sync with the stored note, holding the entered title |
| `NoteEditor.Editor.constructor` | src/components/NoteEditor.tsx:9-11 | the buffer starts as the note's title and content |
| `NoteEditor.Editor.ReceiveNote` | src/components/NoteEditor.tsx:13-16 | whenever the note prop changes, the buffer is reset to the new note's title and content |
| `NoteEditor.Editor.HandleTitleChange` | src/components/NoteEditor.tsx:18-21 | the title buffer takes the entered value and the content buffer is unchanged; the emitted note is the current note with only the title replaced |
| `NoteEditor.Editor.HandleContentChange` | src/components/NoteEditor.tsx:23-26 | the content buffer takes the entered value and the title buffer is unchanged; the emitted note is the current note with only the content replaced |

## Left out

- Rendering: the JSX, CSS class strings and icons, including the tab titles looked up at src/App.tsx:93. They have no behaviour to state.
- Id generation with `Date.now()` (src/App.tsx:15, src/App.tsx:34) depends on the clock. Each fresh id is a parameter instead. It must be non-empty and not yet used in its own collection.
- React scheduling: batched or asynchronous `setState`, functional versus closure updaters, and the timing of `useEffect`. Each handler is one atomic transition that reads the state from before the call.
- DOM event plumbing: `stopPropagation` on the tab's close icon, the blur and Enter-key detection that trigger a rename, and `autoFocus`. `HandleFolderRename` is modelled from the point where it is called.
- Callbacks between components are not direct calls. A view method returns the record it would pass to its callback. Separate lemmas relate that record to the workspace function that receives it.
- `App.Workspace.UpdateNote` requires the incoming note to be filed under null or a live folder. The source does not check this. Its only caller, the note editor, passes a copy of the stored note with its folder unchanged (`NoteEditor.EditIsStored`). Without this precondition the folder-reference invariant could not be kept.
- `App.Workspace.OpenNoteInNewTab` and `App.Workspace.SelectTab` require the id to be an existing note or an open tab. The sidebar only passes ids of listed notes, and the tab bar only ids of rendered tabs. `addNote` (src/App.tsx:21) passes the id of the note it has just built, which the source's `notes` closure does not contain yet. The model meets the requirement there only because `App.Workspace.AddNote` appends the note before it opens the tab; the tab list it opens into is the same either way.
- `NoteEditor.Editor.ReceiveNote`: React reruns the effect when the note object's identity changes. The model reloads the buffer on every new prop. Every update builds a new note object, so the two agree.
