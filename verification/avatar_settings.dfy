/** The avatar dialog of the settings page: file validation on selection, the
    upload outcome and closing. `URL.createObjectURL` is a parameter; the toasts
    are the returned rejection. */
module AvatarSettings {
  import opened Wrappers
  import opened Text

  /** 5 MiB, the largest accepted file. */
  const MaxAvatarBytes: nat := 5 * 1024 * 1024

  datatype FileInfo = FileInfo(name: string, mimeType: string, size: nat)

  datatype Dialog = Dialog(isOpen: bool, previewUrl: Option<string>, selectedFile: Option<FileInfo>)

  datatype Rejection = NotAnImage | TooLarge

  const Closed := Dialog(false, None, None)

  /** The two checks in order: the MIME type first, then the size. */
  function Validate(f: FileInfo): (e: Option<Rejection>)
    ensures e == Some(NotAnImage) <==> !StartsWith(f.mimeType, "image/")
    ensures e == Some(TooLarge) <==> StartsWith(f.mimeType, "image/") && f.size > MaxAvatarBytes
    ensures e.None? <==> StartsWith(f.mimeType, "image/") && f.size <= MaxAvatarBytes
  {
    if !StartsWith(f.mimeType, "image/") then Some(NotAnImage)
    else if f.size > MaxAvatarBytes then Some(TooLarge)
    else None
  }

  /** `handleFileSelect`: no file or a rejected one leaves the dialog as it was; an accepted one is selected and previewed. */
  function HandleFileSelect(d: Dialog, file: Option<FileInfo>, objectUrl: string): (r: (Dialog, Option<Rejection>))
    ensures file.None? ==> r == (d, None)
    ensures file.Some? && Validate(file.value).Some? ==> r.0 == d && r.1 == Validate(file.value)
    ensures file.Some? && Validate(file.value).None? ==>
      r.1.None? && r.0 == d.(selectedFile := file, previewUrl := Some(objectUrl))
  {
    match file
    case None => (d, None)
    case Some(f) =>
      match Validate(f)
      case Some(e) => (d, Some(e))
      case None => (d.(selectedFile := Some(f), previewUrl := Some(objectUrl)), None)
  }

  /** The size bound is inclusive: exactly 5 MiB passes, one byte more does not. */
  lemma SizeBoundary(name: string, mimeType: string)
    requires StartsWith(mimeType, "image/")
    ensures Validate(FileInfo(name, mimeType, MaxAvatarBytes)).None?
    ensures Validate(FileInfo(name, mimeType, MaxAvatarBytes + 1)) == Some(TooLarge)
  {
  }

  /** An oversized file that is not an image is reported as not an image. */
  lemma TypeCheckedFirst(f: FileInfo)
    requires !StartsWith(f.mimeType, "image/") && f.size > MaxAvatarBytes
    ensures HandleFileSelect(Dialog(true, None, None), Some(f), "").1 == Some(NotAnImage)
  {
  }

  /** `handleClose`: the dialog is shut and both the preview and the selection are dropped. */
  function HandleClose(d: Dialog): (r: Dialog)
    ensures !r.isOpen && r.previewUrl.None? && r.selectedFile.None?
  {
    Closed
  }

  /** `onOpenChange`: closing goes through `handleClose`, opening keeps the current selection. */
  function OnOpenChange(d: Dialog, open: bool): (r: Dialog)
    ensures !open ==> r == HandleClose(d)
    ensures open ==> r.isOpen && r.previewUrl == d.previewUrl && r.selectedFile == d.selectedFile
  {
    if open then d.(isOpen := true) else HandleClose(d)
  }

  /** `handleUpload` once the upload has settled: nothing without a selection, a close on success, no change on failure. */
  function AfterUpload(d: Dialog, succeeded: bool): (r: Dialog)
    ensures d.selectedFile.None? ==> r == d
    ensures d.selectedFile.Some? && succeeded ==> r == HandleClose(d)
    ensures d.selectedFile.Some? && !succeeded ==> r == d
  {
    if d.selectedFile.None? then d else if succeeded then HandleClose(d) else d
  }

  /** `handleRemove` once the removal has settled: a close on success whether or not a file was selected, no change on failure. */
  function AfterRemove(d: Dialog, succeeded: bool): (r: Dialog)
    ensures succeeded ==> r == Closed
    ensures !succeeded ==> r == d
  {
    if succeeded then HandleClose(d) else d
  }

  /** Removal and upload close the dialog alike, but only removal closes it without a selected file. */
  lemma RemoveNeedsNoSelection(d: Dialog)
    requires d.isOpen && d.selectedFile.None?
    ensures AfterRemove(d, true) == Closed && AfterUpload(d, true) == d
  {
  }

  /** A file that gets selected is always one the validator accepts, and a successful upload clears it. */
  lemma SelectedFilesAreValid(d: Dialog, f: FileInfo, url: string)
    requires d.selectedFile.None?
    ensures var d1 := HandleFileSelect(d, Some(f), url).0;
      (d1.selectedFile.Some? <==> Validate(f).None?)
      && (d1.selectedFile.Some? ==> AfterUpload(d1, true) == Closed)
  {
  }
}
