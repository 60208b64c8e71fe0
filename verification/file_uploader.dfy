/** The upload drop zone: which file it passes on, and its drag highlight. */
module FileUploader {
  import opened Types
  import opened Text

  /** 500 MiB, the largest accepted upload. */
  const MaxUploadBytes: nat := 500 * 1024 * 1024

  /** The drop zone's default pattern for the file's media type. */
  const DefaultAcceptedTypes: string := "video/mp4"

  /** Why `validateAndUpload` stops, or that it passes the file on. */
  datatype Verdict = WrongType | TooLarge | Accepted

  /** `validateAndUpload(file)`: the media type is checked first, the size
      second; a pattern without regular-expression metacharacters matches
      exactly where it occurs as a substring. */
  function Validate(file: LocalFile, acceptedTypes: string): (r: Verdict)
    ensures r == Accepted <==> Contains(file.mimeType, acceptedTypes) && file.size <= MaxUploadBytes
    ensures !Contains(file.mimeType, acceptedTypes) ==> r == WrongType
    ensures r == TooLarge ==> file.size > MaxUploadBytes
  {
    if !Contains(file.mimeType, acceptedTypes) then WrongType
    else if file.size > MaxUploadBytes then TooLarge
    else Accepted
  }

  lemma ContainsItself(s: string)
    ensures Contains(s, s)
  {
    assert s[0..|s|] == s;
    assert OccursAt(s, s, 0);
  }

  /** An MP4 of exactly 500 MiB is accepted; one byte more is too large,
      and a type mismatch is reported whatever the size. */
  lemma SizeBoundary(name: string, size: nat)
    ensures Validate(LocalFile(name, MaxUploadBytes, "video/mp4"), DefaultAcceptedTypes) == Accepted
    ensures Validate(LocalFile(name, MaxUploadBytes + 1, "video/mp4"), DefaultAcceptedTypes) == TooLarge
    ensures Validate(LocalFile(name, size, ""), DefaultAcceptedTypes) == WrongType
  {
    ContainsItself(DefaultAcceptedTypes);
    assert !Contains("", DefaultAcceptedTypes);
  }

  /** `isDragging`. */
  datatype DropZone = DropZone(isDragging: bool)

  function DragOver(z: DropZone, disabled: bool): (r: DropZone)
    ensures r.isDragging == (z.isDragging || !disabled)
  {
    if !disabled then DropZone(true) else z
  }

  function DragLeave(z: DropZone): (r: DropZone)
    ensures !r.isDragging
  {
    DropZone(false)
  }

  /** What a drop or a file-input change leads to: the drop zone afterwards
      and the file handed to `onFileSelect`, if any. */
  datatype Selection = Selection(zone: DropZone, selected: Option<LocalFile>)

  /** The first file, if it passes validation. */
  function FirstValid(files: seq<LocalFile>, acceptedTypes: string): (r: Option<LocalFile>)
    ensures r.Some? <==> |files| > 0 && Validate(files[0], acceptedTypes) == Accepted
    ensures r.Some? ==> r.value == files[0]
  {
    if |files| > 0 && Validate(files[0], acceptedTypes) == Accepted then Some(files[0]) else None
  }

  /** `handleDrop`: the highlight goes off; a disabled zone ignores the drop;
      otherwise only the first dropped file is considered. */
  function Drop(z: DropZone, disabled: bool, files: seq<LocalFile>, acceptedTypes: string): (r: Selection)
    ensures !r.zone.isDragging
    ensures disabled ==> r.selected.None?
    ensures r.selected.Some? <==> !disabled && |files| > 0 && Validate(files[0], acceptedTypes) == Accepted
    ensures r.selected.Some? ==> r.selected.value == files[0]
  {
    Selection(DropZone(false), if disabled then None else FirstValid(files, acceptedTypes))
  }

  /** `handleFileInputChange`: the first chosen file, validated, and the
      highlight left alone. The handler itself does not test `disabled`: a
      disabled zone disables its file input, so no change event reaches it. */
  function InputChange(z: DropZone, files: seq<LocalFile>, acceptedTypes: string): (r: Selection)
    ensures r.zone == z
    ensures r.selected.Some? <==> |files| > 0 && Validate(files[0], acceptedTypes) == Accepted
    ensures r.selected.Some? ==> r.selected.value == files[0]
  {
    Selection(z, FirstValid(files, acceptedTypes))
  }

  /** Files after the first never change the outcome of a drop. */
  lemma OnlyFirstFileMatters(z: DropZone, disabled: bool, files: seq<LocalFile>, acceptedTypes: string)
    requires |files| > 0
    ensures Drop(z, disabled, files, acceptedTypes) == Drop(z, disabled, files[..1], acceptedTypes)
    ensures InputChange(z, files, acceptedTypes) == InputChange(z, files[..1], acceptedTypes)
  {
  }
}
