/**
 * The workspace held at the root of the application (src/App.tsx): the notes,
 * the folders, the ordered list of open tab ids and the active tab id, and the
 * handlers that replace them.
 *
 * Each handler is one atomic transition that reads the state as it was before
 * the call. The new values are built by the pure functions below, which name the
 * `filter`/`map`/`find` expression of the source they stand for; the class
 * `Workspace` holds the four pieces of state and its methods state the whole new
 * state in terms of them.
 */
module App {
  import opened Types
  import opened ArrayOps

  // ---------------------------------------------------------------------------
  // Identity and the workspace invariant
  // ---------------------------------------------------------------------------

  /** The ids of the notes present. */
  function NoteIds(notes: seq<Note>): set<string>
  {
    set n | n in notes :: n.id
  }

  /** The ids of the folders present. */
  function FolderIds(folders: seq<Folder>): set<string>
  {
    set f | f in folders :: f.id
  }

  /** No two notes share an id. */
  predicate UniqueNoteIds(notes: seq<Note>)
  {
    forall i, j :: 0 <= i < j < |notes| ==> notes[i].id != notes[j].id
  }

  /** No two folders share an id. */
  predicate UniqueFolderIds(folders: seq<Folder>)
  {
    forall i, j :: 0 <= i < j < |folders| ==> folders[i].id != folders[j].id
  }

  /** A note's folder reference is null or the id of a folder that is present. */
  predicate FolderRefOk(folderId: Option<string>, folders: seq<Folder>)
  {
    folderId.None? || folderId.value in FolderIds(folders)
  }

  /**
   * The invariant every handler keeps: note ids and folder ids are unique and
   * non-empty, every note is filed under null or a live folder, the open tabs
   * are distinct ids of existing notes, and the active id is null or one of the
   * open tabs.
   */
  predicate Consistent(notes: seq<Note>, folders: seq<Folder>,
                       openNoteIds: seq<string>, activeNoteId: Option<string>)
  {
    && UniqueNoteIds(notes)
    && UniqueFolderIds(folders)
    && (forall f :: f in folders ==> f.id != "")
    && (forall n :: n in notes ==> n.id != "" && FolderRefOk(n.folderId, folders))
    && Distinct(openNoteIds)
    && (forall id :: id in openNoteIds ==> id in NoteIds(notes))
    && (activeNoteId.Some? ==> activeNoteId.value in openNoteIds)
  }

  // ---------------------------------------------------------------------------
  // The values the handlers compute
  // ---------------------------------------------------------------------------

  /** The note `addNote` creates (App.tsx:14-19). */
  function NewNote(id: string, folderId: Option<string>): (n: Note)
    ensures n.id == id && n.folderId == folderId
    ensures n.title == "New Note" && n.content == ""
  {
    Note(id, DefaultNoteTitle, "", folderId)
  }

  /** The folder `addFolder` creates (App.tsx:33-36). */
  function NewFolder(id: string): (f: Folder)
    ensures f.id == id && f.name == "New Folder"
  {
    Folder(id, DefaultFolderName)
  }

  /** The test `noteId !== id` shared by the `filter` and the `find` over the open tabs. */
  function IsNot(id: string): string -> bool
  {
    x => x != id
  }

  /** `openNoteIds.filter(noteId => noteId !== id)` (App.tsx:26, App.tsx:60). */
  function Without(ids: seq<string>, id: string): (r: seq<string>)
    ensures forall x :: x in r <==> x in ids && x != id
  {
    Filter(IsNot(id), ids)
  }

  /** `openNoteIds.find(noteId => noteId !== id)` (App.tsx:28, App.tsx:62). */
  function FirstOther(ids: seq<string>, id: string): (r: Option<string>)
    ensures r.None? <==> forall x :: x in ids ==> x == id
    ensures r.Some? ==> r.value in ids && r.value != id
  {
    Find(IsNot(id), ids)
  }

  /** JavaScript's `x || null` on a `string | undefined`: the empty string is falsy as well. */
  function OrNull(o: Option<string>): (r: Option<string>)
    ensures r.Some? <==> o.Some? && o.value != ""
    ensures r.Some? ==> r == o
  {
    if o.Some? && o.value != "" then o else None
  }

  /**
   * The active id once the tab `id` is gone (App.tsx:27-29, App.tsx:61-63): the
   * first remaining open tab if `id` was active, the old active id otherwise.
   * When no open id is the empty string, it is what the source's
   * `openNoteIds.find(noteId => noteId !== id) || null` picks.
   */
  function ActiveAfterRemoving(ids: seq<string>, active: Option<string>, id: string): (r: Option<string>)
    ensures active != Some(id) ==> r == active
    ensures active == Some(id) ==> (r.None? <==> forall x :: x in ids ==> x == id)
    ensures active == Some(id) && r.Some? ==> r.value in ids && r.value != id
    ensures active == Some(id) && (forall x :: x in ids ==> x != "") ==> r == OrNull(FirstOther(ids, id))
  {
    if active == Some(id) then
      FindIsHeadOfFilter(IsNot(id), ids);
      var rest := Without(ids, id);
      assert rest != [] ==> rest[0] in rest;
      Head(rest)
    else
      active
  }

  /** The open tabs after `openNoteInNewTab(id)` (App.tsx:53-55). */
  function OpenTab(ids: seq<string>, id: string): (r: seq<string>)
    ensures forall x :: x in r <==> x in ids || x == id
    ensures |ids| <= |r| <= |ids| + 1 && r[..|ids|] == ids
  {
    if id in ids then ids else ids + [id]
  }

  /** `notes.filter(note => note.id !== id)` (App.tsx:25). */
  function RemoveNote(notes: seq<Note>, id: string): (r: seq<Note>)
    ensures forall n :: n in r <==> n in notes && n.id != id
  {
    Filter((n: Note) => n.id != id, notes)
  }

  /** `notes.map(note => note.id === updatedNote.id ? updatedNote : note)` (App.tsx:67). */
  function ReplaceNote(notes: seq<Note>, updated: Note): (r: seq<Note>)
    ensures |r| == |notes|
    ensures forall i :: 0 <= i < |notes| && notes[i].id == updated.id ==> r[i] == updated
    ensures forall i :: 0 <= i < |notes| && notes[i].id != updated.id ==> r[i] == notes[i]
  {
    Map((n: Note) => if n.id == updated.id then updated else n, notes)
  }

  /** `notes.map(note => note.folderId === id ? { ...note, folderId: null } : note)` (App.tsx:49). */
  function Reparent(notes: seq<Note>, id: string): (r: seq<Note>)
    ensures |r| == |notes|
    ensures forall i :: 0 <= i < |notes| && notes[i].folderId == Some(id) ==>
      r[i] == Note(notes[i].id, notes[i].title, notes[i].content, None)
    ensures forall i :: 0 <= i < |notes| && notes[i].folderId != Some(id) ==> r[i] == notes[i]
  {
    Map((n: Note) => if n.folderId == Some(id) then n.(folderId := None) else n, notes)
  }

  /** `folders.filter(folder => folder.id !== id)` (App.tsx:47). */
  function RemoveFolder(folders: seq<Folder>, id: string): (r: seq<Folder>)
    ensures forall f :: f in r <==> f in folders && f.id != id
  {
    Filter((f: Folder) => f.id != id, folders)
  }

  /** `folders.map(folder => folder.id === updatedFolder.id ? updatedFolder : folder)` (App.tsx:41-43). */
  function ReplaceFolder(folders: seq<Folder>, updated: Folder): (r: seq<Folder>)
    ensures |r| == |folders|
    ensures forall i :: 0 <= i < |folders| && folders[i].id == updated.id ==> r[i] == updated
    ensures forall i :: 0 <= i < |folders| && folders[i].id != updated.id ==> r[i] == folders[i]
  {
    Map((f: Folder) => if f.id == updated.id then updated else f, folders)
  }

  /** `notes.find(note => note.id === id)` (App.tsx:93, App.tsx:108). */
  function NoteById(notes: seq<Note>, id: string): (r: Option<Note>)
    ensures r.None? <==> id !in NoteIds(notes)
    ensures r.Some? ==> r.value in notes && r.value.id == id
  {
    Find((n: Note) => n.id == id, notes)
  }

  // ---------------------------------------------------------------------------
  // Properties of the values
  // ---------------------------------------------------------------------------

  /**
   * The tie-break rule: `find` over the tabs as they were before the removal,
   * followed by `|| null`, picks the head of the tabs that remain, provided no
   * open id is the empty string.
   */
  lemma FirstOtherIsHeadOfRemaining(ids: seq<string>, id: string)
    requires forall x :: x in ids ==> x != ""
    ensures OrNull(FirstOther(ids, id)) == Head(Without(ids, id))
  {
    FindIsHeadOfFilter(IsNot(id), ids);
  }

  /** The new active id is null or one of the remaining tabs, and it is null only when no tab remains. */
  lemma ActiveAfterRemovingIsOpen(ids: seq<string>, active: Option<string>, id: string)
    requires active.Some? ==> active.value in ids
    ensures ActiveAfterRemoving(ids, active, id).Some? ==> ActiveAfterRemoving(ids, active, id).value in Without(ids, id)
    ensures ActiveAfterRemoving(ids, active, id).None? && active.Some? ==> Without(ids, id) == []
  {
  }

  /** Removing an id that is not there changes nothing. */
  lemma WithoutAbsent(ids: seq<string>, id: string)
    requires id !in ids
    ensures Without(ids, id) == ids
  {
    FilterKeepsAll(IsNot(id), ids);
  }

  /** Removing a tab from a list without repetitions takes out exactly its position and keeps the rest in order. */
  lemma WithoutRemovesOnePosition(before: seq<string>, id: string, after: seq<string>)
    requires id !in before && id !in after
    ensures Without(before + [id] + after, id) == before + after
  {
    var p := IsNot(id);
    assert Filter(p, [id]) == [] by {
      assert !p(id) && [id][1..] == [];
    }
    FilterAppend(p, before, [id]);
    FilterAppend(p, before + [id], after);
    WithoutAbsent(before, id);
    WithoutAbsent(after, id);
    assert Filter(p, before + [id]) == before;
  }

  /** Removing ids from a list without repetitions leaves one without repetitions. */
  lemma WithoutKeepsDistinct(ids: seq<string>, id: string)
    requires Distinct(ids)
    ensures Distinct(Without(ids, id))
  {
    FilterKeepsDistinct(IsNot(id), ids);
  }

  /** Opening a tab never repeats one, and opening the same tab again changes nothing. */
  lemma OpenTabProperties(ids: seq<string>, id: string)
    requires Distinct(ids)
    ensures Distinct(OpenTab(ids, id))
    ensures OpenTab(OpenTab(ids, id), id) == OpenTab(ids, id)
    ensures id in ids ==> OpenTab(ids, id) == ids
    ensures id !in ids ==> OpenTab(ids, id) == ids + [id]
  {
  }

  /** Deleting a note removes exactly its id from the note ids. */
  lemma RemoveNoteIds(notes: seq<Note>, id: string)
    ensures NoteIds(RemoveNote(notes, id)) == NoteIds(notes) - {id}
  {
  }

  /** Deleting a note keeps the remaining ids unique. */
  lemma RemoveNoteKeepsUnique(notes: seq<Note>, id: string)
    requires UniqueNoteIds(notes)
    ensures UniqueNoteIds(RemoveNote(notes, id))
  {
    var R := (a: Note, b: Note) => a.id != b.id;
    assert Pairwise(R, notes);
    FilterKeepsPairwise((n: Note) => n.id != id, R, notes);
    var r := RemoveNote(notes, id);
    forall i, j | 0 <= i < j < |r| ensures r[i].id != r[j].id {
      assert R(r[i], r[j]);
    }
  }

  /** Deleting a folder removes exactly its id from the folder ids. */
  lemma RemoveFolderIds(folders: seq<Folder>, id: string)
    ensures FolderIds(RemoveFolder(folders, id)) == FolderIds(folders) - {id}
  {
  }

  /** Deleting a folder keeps the remaining folder ids unique. */
  lemma RemoveFolderKeepsUnique(folders: seq<Folder>, id: string)
    requires UniqueFolderIds(folders)
    ensures UniqueFolderIds(RemoveFolder(folders, id))
  {
    var R := (a: Folder, b: Folder) => a.id != b.id;
    assert Pairwise(R, folders);
    FilterKeepsPairwise((f: Folder) => f.id != id, R, folders);
    var r := RemoveFolder(folders, id);
    forall i, j | 0 <= i < j < |r| ensures r[i].id != r[j].id {
      assert R(r[i], r[j]);
    }
  }

  /** Replacing a note by id keeps the set of ids and their uniqueness. */
  lemma ReplaceNoteKeepsIds(notes: seq<Note>, updated: Note)
    ensures NoteIds(ReplaceNote(notes, updated)) == NoteIds(notes)
    ensures UniqueNoteIds(notes) ==> UniqueNoteIds(ReplaceNote(notes, updated))
  {
  }

  /** An update whose id matches no note is a no-op. */
  lemma ReplaceNoteAbsent(notes: seq<Note>, updated: Note)
    requires updated.id !in NoteIds(notes)
    ensures ReplaceNote(notes, updated) == notes
  {
  }

  /** After an update of a present note, looking that id up finds the updated note. */
  lemma ReplaceNoteThenFind(notes: seq<Note>, updated: Note)
    requires UniqueNoteIds(notes)
    requires updated.id in NoteIds(notes)
    ensures NoteById(ReplaceNote(notes, updated), updated.id) == Some(updated)
  {
  }

  /** Replacing a folder by id keeps the set of folder ids and their uniqueness. */
  lemma ReplaceFolderKeepsIds(folders: seq<Folder>, updated: Folder)
    ensures FolderIds(ReplaceFolder(folders, updated)) == FolderIds(folders)
    ensures UniqueFolderIds(folders) ==> UniqueFolderIds(ReplaceFolder(folders, updated))
  {
  }

  /** A folder update whose id matches no folder is a no-op. */
  lemma ReplaceFolderAbsent(folders: seq<Folder>, updated: Folder)
    requires updated.id !in FolderIds(folders)
    ensures ReplaceFolder(folders, updated) == folders
  {
  }

  /** Re-parenting keeps every note id, and afterwards no note is filed under the deleted folder. */
  lemma ReparentProperties(notes: seq<Note>, id: string)
    ensures NoteIds(Reparent(notes, id)) == NoteIds(notes)
    ensures UniqueNoteIds(notes) ==> UniqueNoteIds(Reparent(notes, id))
    ensures forall n :: n in Reparent(notes, id) ==> n.folderId != Some(id)
  {
  }

  // ---------------------------------------------------------------------------
  // Every handler keeps the invariant
  // ---------------------------------------------------------------------------

  /** `setNotes([...notes, newNote])` with a fresh non-empty id and a valid folder (App.tsx:13-20). */
  lemma AppendNoteKeepsConsistent(notes: seq<Note>, folders: seq<Folder>, open: seq<string>,
                                  active: Option<string>, freshId: string, folderId: Option<string>)
    requires Consistent(notes, folders, open, active)
    requires freshId != "" && freshId !in NoteIds(notes)
    requires FolderRefOk(folderId, folders)
    ensures Consistent(notes + [NewNote(freshId, folderId)], folders, open, active)
    ensures freshId !in open
  {
  }

  /** `openNoteInNewTab(id)` for an existing note (App.tsx:52-57). */
  lemma OpenTabKeepsConsistent(notes: seq<Note>, folders: seq<Folder>, open: seq<string>,
                               active: Option<string>, id: string)
    requires Consistent(notes, folders, open, active)
    requires id in NoteIds(notes)
    ensures Consistent(notes, folders, OpenTab(open, id), Some(id))
  {
  }

  /** The whole of `addNote`: the note is appended, a tab for it is appended and made active. */
  lemma AddNoteKeepsConsistent(notes: seq<Note>, folders: seq<Folder>, open: seq<string>,
                               active: Option<string>, freshId: string, folderId: Option<string>)
    requires Consistent(notes, folders, open, active)
    requires freshId != "" && freshId !in NoteIds(notes)
    requires FolderRefOk(folderId, folders)
    ensures OpenTab(open, freshId) == open + [freshId]
    ensures Consistent(notes + [NewNote(freshId, folderId)], folders, open + [freshId], Some(freshId))
  {
  }

  /** `deleteNote(id)` (App.tsx:24-30). */
  lemma DeleteNoteKeepsConsistent(notes: seq<Note>, folders: seq<Folder>, open: seq<string>,
                                  active: Option<string>, id: string)
    requires Consistent(notes, folders, open, active)
    ensures Consistent(RemoveNote(notes, id), folders, Without(open, id), ActiveAfterRemoving(open, active, id))
  {
    RemoveNoteIds(notes, id);
    RemoveNoteKeepsUnique(notes, id);
    WithoutKeepsDistinct(open, id);
    ActiveAfterRemovingIsOpen(open, active, id);
  }

  /** `closeNote(id)` (App.tsx:59-64). */
  lemma CloseNoteKeepsConsistent(notes: seq<Note>, folders: seq<Folder>, open: seq<string>,
                                 active: Option<string>, id: string)
    requires Consistent(notes, folders, open, active)
    ensures Consistent(notes, folders, Without(open, id), ActiveAfterRemoving(open, active, id))
  {
    WithoutKeepsDistinct(open, id);
    ActiveAfterRemovingIsOpen(open, active, id);
  }

  /** Closing a tab that is not open leaves the tabs and the active id as they were. */
  lemma CloseNotOpenIsNoop(notes: seq<Note>, folders: seq<Folder>, open: seq<string>,
                           active: Option<string>, id: string)
    requires Consistent(notes, folders, open, active)
    requires id !in open
    ensures Without(open, id) == open
    ensures ActiveAfterRemoving(open, active, id) == active
  {
    WithoutAbsent(open, id);
  }

  /** `updateNote(note)`, for an update that keeps the folder reference valid (App.tsx:66-68). */
  lemma UpdateNoteKeepsConsistent(notes: seq<Note>, folders: seq<Folder>, open: seq<string>,
                                  active: Option<string>, updated: Note)
    requires Consistent(notes, folders, open, active)
    requires FolderRefOk(updated.folderId, folders)
    ensures Consistent(ReplaceNote(notes, updated), folders, open, active)
  {
  }

  /** `addFolder()` with a fresh id (App.tsx:32-38). */
  lemma AddFolderKeepsConsistent(notes: seq<Note>, folders: seq<Folder>, open: seq<string>,
                                 active: Option<string>, freshId: string)
    requires Consistent(notes, folders, open, active)
    requires freshId != "" && freshId !in FolderIds(folders)
    ensures Consistent(notes, folders + [NewFolder(freshId)], open, active)
  {
  }

  /** `updateFolder(folder)` (App.tsx:40-44). */
  lemma UpdateFolderKeepsConsistent(notes: seq<Note>, folders: seq<Folder>, open: seq<string>,
                                    active: Option<string>, updated: Folder)
    requires Consistent(notes, folders, open, active)
    ensures Consistent(notes, ReplaceFolder(folders, updated), open, active)
  {
  }

  /** `deleteFolder(id)`: the folder goes, its notes move to the root (App.tsx:46-50). */
  lemma DeleteFolderKeepsConsistent(notes: seq<Note>, folders: seq<Folder>, open: seq<string>,
                                    active: Option<string>, id: string)
    requires Consistent(notes, folders, open, active)
    ensures Consistent(Reparent(notes, id), RemoveFolder(folders, id), open, active)
  {
    ReparentProperties(notes, id);
    RemoveFolderIds(folders, id);
    RemoveFolderKeepsUnique(folders, id);
    var r := Reparent(notes, id);
    forall n | n in r ensures n.id != "" && FolderRefOk(n.folderId, RemoveFolder(folders, id)) {
      var i :| 0 <= i < |r| && r[i] == n;
      assert notes[i] in notes;
    }
  }

  /** The tab-click select `setActiveNoteId(id)` on an open tab (App.tsx:91). */
  lemma SelectTabKeepsConsistent(notes: seq<Note>, folders: seq<Folder>, open: seq<string>,
                                 active: Option<string>, id: string)
    requires Consistent(notes, folders, open, active)
    requires id in open
    ensures Consistent(notes, folders, open, Some(id))
  {
  }

  /** The invariant makes `notes.find(note => note.id === activeNoteId)!` safe (App.tsx:106-108). */
  lemma ActiveNoteExists(notes: seq<Note>, folders: seq<Folder>, open: seq<string>, active: Option<string>)
    requires Consistent(notes, folders, open, active)
    requires active.Some?
    ensures NoteById(notes, active.value).Some?
    ensures active.value != ""
  {
  }

  // ---------------------------------------------------------------------------
  // Worked examples of the tab rules
  // ---------------------------------------------------------------------------

  /** Tabs [n1, n2, n3] with n3 active; closing n1 leaves [n2, n3] and n3 active. */
  lemma CloseInactiveTabExample()
    ensures Without(["n1", "n2", "n3"], "n1") == ["n2", "n3"]
    ensures ActiveAfterRemoving(["n1", "n2", "n3"], Some("n3"), "n1") == Some("n3")
  {
  }

  /** Tabs [n1, n2, n3] with n2 active; closing n2 leaves [n1, n3] and the source's `find` picks n1. */
  lemma CloseActiveTabExample()
    ensures Without(["n1", "n2", "n3"], "n2") == ["n1", "n3"]
    ensures OrNull(FirstOther(["n1", "n2", "n3"], "n2")) == Some("n1")
    ensures ActiveAfterRemoving(["n1", "n2", "n3"], Some("n2"), "n2") == Some("n1")
  {
  }

  /** The only note, open and active, is deleted: no note, no tab, no active id. */
  lemma DeleteOnlyNoteExample(n1: Note)
    ensures RemoveNote([n1], n1.id) == []
    ensures Without([n1.id], n1.id) == []
    ensures ActiveAfterRemoving([n1.id], Some(n1.id), n1.id) == None
  {
  }

  /** Folder f holds n1 and n2, n3 is at the root; deleting f moves n1 and n2 to the root and leaves n3. */
  lemma DeleteFolderExample(f: Folder, n1: Note, n2: Note, n3: Note)
    requires n1.folderId == Some(f.id) && n2.folderId == Some(f.id) && n3.folderId.None?
    ensures Reparent([n1, n2, n3], f.id) == [n1.(folderId := None), n2.(folderId := None), n3]
    ensures RemoveFolder([f], f.id) == []
  {
  }

  // ---------------------------------------------------------------------------
  // The state
  // ---------------------------------------------------------------------------

  /** The four `useState` fields of `App` (App.tsx:8-11) and the handlers that overwrite them. */
  class Workspace {
    var notes: seq<Note>
    var folders: seq<Folder>
    var openNoteIds: seq<string>
    var activeNoteId: Option<string>

    ghost predicate Valid()
      reads this
    {
      Consistent(notes, folders, openNoteIds, activeNoteId)
    }

    /** The initial state: nothing present, nothing open (App.tsx:8-11). */
    constructor ()
      ensures Valid()
      ensures notes == [] && folders == [] && openNoteIds == [] && activeNoteId == None
    {
      notes, folders, openNoteIds, activeNoteId := [], [], [], None;
    }

    /** `addNote(folderId)`; `freshId` stands for `Date.now().toString()` (App.tsx:13-22). */
    method AddNote(freshId: string, folderId: Option<string>)
      requires Valid()
      requires freshId != "" && freshId !in NoteIds(notes)
      requires FolderRefOk(folderId, folders)
      modifies this
      ensures Valid()
      ensures notes == old(notes) + [NewNote(freshId, folderId)]
      ensures folders == old(folders)
      ensures openNoteIds == old(openNoteIds) + [freshId]
      ensures activeNoteId == Some(freshId)
    {
      AppendNoteKeepsConsistent(notes, folders, openNoteIds, activeNoteId, freshId, folderId);
      var newNote := NewNote(freshId, folderId);
      notes := notes + [newNote];
      assert newNote.id in NoteIds(notes) by { assert notes[|notes| - 1] == newNote; }
      OpenNoteInNewTab(newNote.id);
    }

    /** `deleteNote(id)` (App.tsx:24-30). */
    method DeleteNote(id: string)
      requires Valid()
      modifies this
      ensures Valid()
      ensures notes == RemoveNote(old(notes), id)
      ensures folders == old(folders)
      ensures openNoteIds == Without(old(openNoteIds), id)
      ensures activeNoteId == ActiveAfterRemoving(old(openNoteIds), old(activeNoteId), id)
    {
      DeleteNoteKeepsConsistent(notes, folders, openNoteIds, activeNoteId, id);
      FirstOtherIsHeadOfRemaining(openNoteIds, id);
      var previouslyOpen := openNoteIds;
      notes := RemoveNote(notes, id);
      openNoteIds := Without(previouslyOpen, id);
      if activeNoteId == Some(id) {
        activeNoteId := OrNull(FirstOther(previouslyOpen, id));
      }
    }

    /** `addFolder()`; `freshId` stands for `Date.now().toString()` (App.tsx:32-38). */
    method AddFolder(freshId: string)
      requires Valid()
      requires freshId != "" && freshId !in FolderIds(folders)
      modifies this
      ensures Valid()
      ensures folders == old(folders) + [NewFolder(freshId)]
      ensures notes == old(notes) && openNoteIds == old(openNoteIds) && activeNoteId == old(activeNoteId)
    {
      AddFolderKeepsConsistent(notes, folders, openNoteIds, activeNoteId, freshId);
      folders := folders + [NewFolder(freshId)];
    }

    /** `updateFolder(updatedFolder)` (App.tsx:40-44). */
    method UpdateFolder(updated: Folder)
      requires Valid()
      modifies this
      ensures Valid()
      ensures folders == ReplaceFolder(old(folders), updated)
      ensures notes == old(notes) && openNoteIds == old(openNoteIds) && activeNoteId == old(activeNoteId)
    {
      UpdateFolderKeepsConsistent(notes, folders, openNoteIds, activeNoteId, updated);
      folders := ReplaceFolder(folders, updated);
    }

    /** `deleteFolder(id)` (App.tsx:46-50). */
    method DeleteFolder(id: string)
      requires Valid()
      modifies this
      ensures Valid()
      ensures folders == RemoveFolder(old(folders), id)
      ensures notes == Reparent(old(notes), id)
      ensures openNoteIds == old(openNoteIds) && activeNoteId == old(activeNoteId)
    {
      DeleteFolderKeepsConsistent(notes, folders, openNoteIds, activeNoteId, id);
      folders := RemoveFolder(folders, id);
      notes := Reparent(notes, id);
    }

    /** `openNoteInNewTab(id)`, also the sidebar's select (App.tsx:52-57). */
    method OpenNoteInNewTab(id: string)
      requires Valid()
      requires id in NoteIds(notes)
      modifies this
      ensures Valid()
      ensures openNoteIds == OpenTab(old(openNoteIds), id)
      ensures activeNoteId == Some(id)
      ensures notes == old(notes) && folders == old(folders)
    {
      OpenTabKeepsConsistent(notes, folders, openNoteIds, activeNoteId, id);
      if id !in openNoteIds {
        openNoteIds := openNoteIds + [id];
      }
      activeNoteId := Some(id);
    }

    /** `closeNote(id)` (App.tsx:59-64). */
    method CloseNote(id: string)
      requires Valid()
      modifies this
      ensures Valid()
      ensures openNoteIds == Without(old(openNoteIds), id)
      ensures activeNoteId == ActiveAfterRemoving(old(openNoteIds), old(activeNoteId), id)
      ensures notes == old(notes) && folders == old(folders)
    {
      CloseNoteKeepsConsistent(notes, folders, openNoteIds, activeNoteId, id);
      FirstOtherIsHeadOfRemaining(openNoteIds, id);
      var previouslyOpen := openNoteIds;
      openNoteIds := Without(previouslyOpen, id);
      if activeNoteId == Some(id) {
        activeNoteId := OrNull(FirstOther(previouslyOpen, id));
      }
    }

    /** `updateNote(updatedNote)` (App.tsx:66-68). */
    method UpdateNote(updated: Note)
      requires Valid()
      requires FolderRefOk(updated.folderId, folders)
      modifies this
      ensures Valid()
      ensures notes == ReplaceNote(old(notes), updated)
      ensures folders == old(folders) && openNoteIds == old(openNoteIds) && activeNoteId == old(activeNoteId)
    {
      UpdateNoteKeepsConsistent(notes, folders, openNoteIds, activeNoteId, updated);
      notes := ReplaceNote(notes, updated);
    }

    /** Clicking a tab: `setActiveNoteId(id)` for an open id (App.tsx:87-91). */
    method SelectTab(id: string)
      requires Valid()
      requires id in openNoteIds
      modifies this
      ensures Valid()
      ensures activeNoteId == Some(id)
      ensures notes == old(notes) && folders == old(folders) && openNoteIds == old(openNoteIds)
    {
      activeNoteId := Some(id);
    }

    /**
     * The note handed to the editor: `activeNoteId && notes.find(...)!`
     * (App.tsx:106-108). Under the invariant the `find` never comes back empty.
     */
    method ActiveNote() returns (note: Option<Note>)
      requires Valid()
      ensures activeNoteId.None? ==> note.None?
      ensures activeNoteId.Some? ==> note.Some? && note.value in notes && note.value.id == activeNoteId.value
    {
      if activeNoteId.Some? && activeNoteId.value != "" {
        ActiveNoteExists(notes, folders, openNoteIds, activeNoteId);
        note := NoteById(notes, activeNoteId.value);
      } else {
        note := None;
      }
    }
  }

  /**
   * Opening an already open tab while another is active: notes n1 and n2 are
   * added (each opens its own tab), the tab n1 is clicked, then n2 is opened
   * again. No tab is added and n2 becomes active.
   */
  method ReopenTabExample() returns (open: seq<string>, active: Option<string>)
    ensures open == ["n1", "n2"] && active == Some("n2")
  {
    var ws := new Workspace();
    ws.AddNote("n1", None);
    assert NoteIds(ws.notes) == {"n1"};
    ws.AddNote("n2", None);
    ws.SelectTab("n1");
    assert ws.notes[1].id == "n2";
    ws.OpenNoteInNewTab("n2");
    open, active := ws.openNoteIds, ws.activeNoteId;
  }
}
