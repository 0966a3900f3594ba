/**
 * The edit data the engine works on, as the TypeScript language service supplies it.
 * Strings are Dafny strings of Unicode scalar values and offsets index them; this matches
 * the UTF-16 offsets of the source only for text within the Basic Multilingual Plane.
 */
module Edits {
  /** A replacement of `length` characters at `start` of the ORIGINAL file text by `newText`. */
  datatype TextChange = TextChange(start: nat, length: nat, newText: string)

  /** All edits a fix makes to one file. */
  datatype FileTextChanges = FileTextChanges(fileName: string, textChanges: seq<TextChange>)

  /** A fix suggested for one diagnostic: its category name and its edits, file by file. */
  datatype CodeFixAction = CodeFixAction(fixName: string, changes: seq<FileTextChanges>)

  /** The first offset after the span a change replaces. */
  function End(c: TextChange): nat
  {
    c.start + c.length
  }
}
