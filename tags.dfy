/**
 * The context tags a prompt can carry, and the collaborators they refer to.
 * A file handle is an opaque path; the editor's selection model is an object
 * whose selection the panel clears after turning it into a tag.
 */
module Tags {

  datatype Option<T> = None | Some(value: T)

  /** An opaque file handle (an IDE virtual file). */
  type FilePath = string

  /** A version-control commit: its full id and the short form the VCS renders for it. */
  datatype Commit = Commit(id: string, shortId: string)

  /** The current selection of an editor, if any. */
  datatype Selection = NoSelection | Range(start: nat, end: nat)

  /** An editor's selection model; shared with the editor, so it is an object. */
  class SelectionModel {
    var selection: Selection

    constructor (selection: Selection)
      ensures this.selection == selection
    {
      this.selection := selection;
    }

    method RemoveSelection()
      modifies this`selection
      ensures selection == NoSelection
    {
      selection := NoSelection;
    }
  }

  datatype Tag =
    | FileTag(file: FilePath)
    | SelectionTag(file: FilePath, selectionModel: SelectionModel)
    | EditorSelectionTag(file: FilePath, selectionModel: SelectionModel)
    | CommitTag(commit: Commit)

  /** One file tag per file, in the order of the files. */
  function FileTags(files: seq<FilePath>): (r: seq<Tag>)
    ensures |r| == |files|
    ensures forall i :: 0 <= i < |files| ==> r[i] == FileTag(files[i])
  {
    if files == [] then [] else FileTags(files[..|files| - 1]) + [FileTag(files[|files| - 1])]
  }

  /** One commit tag per commit, in the order of the commits. */
  function CommitTags(commits: seq<Commit>): (r: seq<Tag>)
    ensures |r| == |commits|
    ensures forall i :: 0 <= i < |commits| ==> r[i] == CommitTag(commits[i])
  {
    if commits == [] then [] else CommitTags(commits[..|commits| - 1]) + [CommitTag(commits[|commits| - 1])]
  }
}
