/** The records shared by the workspace and its views (src/types.ts). */
module Types {

  /** `T | null`: a value that may be absent. */
  datatype Option<T> = None | Some(value: T)

  /** A note; `folderId` is `None` for a note at the root level. */
  datatype Note = Note(id: string, title: string, content: string, folderId: Option<string>)

  /** A folder that notes may be filed under. */
  datatype Folder = Folder(id: string, name: string)

  /** Title given to every freshly added note. */
  const DefaultNoteTitle: string := "New Note"

  /** Name given to every freshly added folder. */
  const DefaultFolderName: string := "New Folder"
}
