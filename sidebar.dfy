/**
 * The logic of the sidebar (src/components/Sidebar.tsx): the view-local set of
 * expanded folders and the folder being renamed, the rename record it hands to
 * the workspace, and how the notes are grouped into folder lists and a root list.
 */
module Sidebar {
  import opened Types
  import opened ArrayOps
  import App

  // ---------------------------------------------------------------------------
  // Expanded folders
  // ---------------------------------------------------------------------------

  /** The expanded set after toggling `folderId`: removed if present, added if absent. */
  function Toggled(expanded: set<string>, folderId: string): (r: set<string>)
    ensures folderId in r <==> folderId !in expanded
    ensures forall x :: x != folderId ==> (x in r <==> x in expanded)
  {
    if folderId in expanded then expanded - {folderId} else expanded + {folderId}
  }

  /** Toggling the same folder twice restores the expanded set. */
  lemma ToggleTwice(expanded: set<string>, folderId: string)
    ensures Toggled(Toggled(expanded, folderId), folderId) == expanded
  {
  }

  // ---------------------------------------------------------------------------
  // Grouping notes
  // ---------------------------------------------------------------------------

  /** The test `note.folderId === folderId`. */
  function FiledUnder(folderId: Option<string>): Note -> bool
  {
    (n: Note) => n.folderId == folderId
  }

  /** The notes filed under `folderId` (null for the root), in the order of `notes`. */
  function NotesFiledUnder(notes: seq<Note>, folderId: Option<string>): (r: seq<Note>)
    ensures forall n :: n in r <==> n in notes && n.folderId == folderId
    ensures |r| <= |notes|
  {
    Filter(FiledUnder(folderId), notes)
  }

  /** `notes.filter(note => note.folderId === folder.id)` (Sidebar.tsx:147). */
  function FolderNotes(notes: seq<Note>, folder: Folder): (r: seq<Note>)
    ensures forall n :: n in r <==> n in notes && n.folderId == Some(folder.id)
  {
    NotesFiledUnder(notes, Some(folder.id))
  }

  /** `notes.filter(note => note.folderId === null)` (Sidebar.tsx:152). */
  function RootNotes(notes: seq<Note>): (r: seq<Note>)
    ensures forall n :: n in r <==> n in notes && n.folderId.None?
  {
    NotesFiledUnder(notes, None)
  }

  /** What the sidebar lists under a folder: its notes while it is expanded, nothing otherwise (Sidebar.tsx:145-148). */
  function ListedUnder(notes: seq<Note>, expanded: set<string>, folder: Folder): (r: seq<Note>)
    ensures forall n :: n in r <==> folder.id in expanded && n in notes && n.folderId == Some(folder.id)
  {
    if folder.id in expanded then FolderNotes(notes, folder) else []
  }

  /** Grouping keeps the order of `notes`: the group of a concatenation is the concatenation of the groups. */
  lemma NotesFiledUnderAppend(a: seq<Note>, b: seq<Note>, folderId: Option<string>)
    ensures NotesFiledUnder(a + b, folderId) == NotesFiledUnder(a, folderId) + NotesFiledUnder(b, folderId)
  {
    FilterAppend(FiledUnder(folderId), a, b);
  }

  /** A single note is listed in the group named by its `folderId` and in no other. */
  lemma NotesFiledUnderSingle(n: Note, folderId: Option<string>)
    ensures NotesFiledUnder([n], folderId) == if n.folderId == folderId then [n] else []
  {
  }

  /**
   * With unique folder ids and no dangling folder reference, every note is
   * listed exactly once: in the root list, or in the list of exactly one folder.
   */
  lemma EachNoteInExactlyOneGroup(notes: seq<Note>, folders: seq<Folder>, n: Note)
    requires App.UniqueFolderIds(folders)
    requires forall m :: m in notes ==> App.FolderRefOk(m.folderId, folders)
    requires n in notes
    ensures n in RootNotes(notes) <==> n.folderId.None?
    ensures n.folderId.None? ==> forall i :: 0 <= i < |folders| ==> n !in FolderNotes(notes, folders[i])
    ensures n.folderId.Some? ==>
      exists i :: 0 <= i < |folders| && n in FolderNotes(notes, folders[i]) &&
        forall j :: 0 <= j < |folders| && j != i ==> n !in FolderNotes(notes, folders[j])
  {
  }

  /** The sidebar's two "add note" buttons pass null or the id of a listed folder (Sidebar.tsx:83, Sidebar.tsx:123). */
  lemma AddNoteTargetsAreValid(folders: seq<Folder>, folder: Folder)
    requires folder in folders
    ensures App.FolderRefOk(None, folders)
    ensures App.FolderRefOk(Some(folder.id), folders)
  {
  }

  // ---------------------------------------------------------------------------
  // Renaming
  // ---------------------------------------------------------------------------

  /** The record `handleFolderRename` hands to `onUpdateFolder` (Sidebar.tsx:46). */
  function RenamedFolder(folderId: string, newName: string): (f: Folder)
    ensures f.id == folderId && f.name == newName
  {
    Folder(folderId, newName)
  }

  /**
   * Handing the rename record to the workspace's `updateFolder` renames the
   * folder with that id, leaves every other folder as it was and keeps the set
   * of folder ids.
   */
  lemma RenameRenamesOnlyThatFolder(folders: seq<Folder>, folderId: string, newName: string)
    ensures App.FolderIds(App.ReplaceFolder(folders, RenamedFolder(folderId, newName))) == App.FolderIds(folders)
    ensures forall i :: 0 <= i < |folders| && folders[i].id == folderId ==>
      App.ReplaceFolder(folders, RenamedFolder(folderId, newName))[i] == Folder(folderId, newName)
    ensures forall i :: 0 <= i < |folders| && folders[i].id != folderId ==>
      App.ReplaceFolder(folders, RenamedFolder(folderId, newName))[i] == folders[i]
  {
  }

  // ---------------------------------------------------------------------------
  // The view-local state
  // ---------------------------------------------------------------------------

  /** The two `useState` fields of `Sidebar` (Sidebar.tsx:30-31). */
  class SidebarView {
    var expandedFolders: set<string>
    var editingFolderId: Option<string>

    /** No folder expanded, none being renamed (Sidebar.tsx:30-31). */
    constructor ()
      ensures expandedFolders == {} && editingFolderId == None
    {
      expandedFolders, editingFolderId := {}, None;
    }

    /** `toggleFolder(folderId)`: copy the set, then delete or add the id (Sidebar.tsx:33-43). */
    method ToggleFolder(folderId: string)
      modifies this
      ensures expandedFolders == Toggled(old(expandedFolders), folderId)
      ensures editingFolderId == old(editingFolderId)
    {
      var newSet := expandedFolders;
      if folderId in newSet {
        newSet := newSet - {folderId};
      } else {
        newSet := newSet + {folderId};
      }
      expandedFolders := newSet;
    }

    /** The rename button: `setEditingFolderId(folder.id)` (Sidebar.tsx:130). */
    method StartRename(folderId: string)
      modifies this
      ensures editingFolderId == Some(folderId)
      ensures expandedFolders == old(expandedFolders)
    {
      editingFolderId := Some(folderId);
    }

    /**
     * `handleFolderRename(folderId, newName)`: the returned folder is the one
     * passed to `onUpdateFolder`; renaming ends (Sidebar.tsx:45-48).
     */
    method HandleFolderRename(folderId: string, newName: string) returns (renamed: Folder)
      modifies this
      ensures renamed == RenamedFolder(folderId, newName)
      ensures editingFolderId == None
      ensures expandedFolders == old(expandedFolders)
    {
      renamed := RenamedFolder(folderId, newName);
      editingFolderId := None;
    }
  }
}
