/** The browser's file pickers, as the pages read them. */
module Files {
  import opened Wrappers

  /** A file chosen in a file input, known by its name. */
  type FileRef = string

  /** `event.target.files[0]`: the first chosen file, or nothing when the choice was cancelled. */
  function FirstFile(files: seq<FileRef>): (chosen: Option<FileRef>)
    ensures chosen.None? <==> files == []
    ensures chosen.Some? ==> chosen.value == files[0]
  {
    if files == [] then None else Some(files[0])
  }
}
