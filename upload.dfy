/**
 * The drag-and-drop upload page of the web client (components/upload/upload.component.ts):
 * a drop zone whose highlight follows the drag, and a gate that lets only PDF files of at
 * most 10 MiB through to the upload request. Alerts are returned as values; the server
 * calls are replaced by their outcomes.
 */
module Upload {
  import opened Wrappers
  import opened Strings
  import opened Records

  const MaxUploadBytes: nat := 10 * 1024 * 1024

  const NotPdfAlert := "Please upload PDF files only"
  const TooLargeAlert := "File size should not exceed 10MB"
  const UploadFailedAlert := "Failed to upload file. Please try again."

  datatype Verdict = NotPdf | TooLarge | Accepted

  /** The two guards of `uploadFile`, in their order: the MIME type must contain "pdf", then the
      size must not exceed 10 MiB. */
  function Check(file: PickedFile): (v: Verdict)
    ensures v == NotPdf <==> !Contains(file.mimeType, "pdf")
    ensures v == TooLarge <==> Contains(file.mimeType, "pdf") && file.size > MaxUploadBytes
    ensures v == Accepted <==> Contains(file.mimeType, "pdf") && file.size <= MaxUploadBytes
  {
    if !Contains(file.mimeType, "pdf") then NotPdf
    else if file.size > MaxUploadBytes then TooLarge
    else Accepted
  }

  /** The alert each rejection shows. */
  function RejectionAlert(v: Verdict): (alert: string)
    requires v != Accepted
    ensures alert == NotPdfAlert <==> v == NotPdf
    ensures alert == TooLargeAlert <==> v == TooLarge
  {
    assert NotPdfAlert[0] == 'P' && TooLargeAlert[0] == 'F';
    match v
    case NotPdf => NotPdfAlert
    case TooLarge => TooLargeAlert
  }

  /** The MIME type browsers give PDF files passes the type guard. */
  lemma PdfMimeTypePasses()
    ensures Contains("application/pdf", "pdf")
  {
    assert OccursAt("pdf", "application/pdf", 12);
  }

  /** The size bound is inclusive: exactly 10 MiB passes, one byte more does not. */
  lemma SizeBoundInclusive(name: string)
    ensures Check(PickedFile(name, "application/pdf", 10485760)) == Accepted
    ensures Check(PickedFile(name, "application/pdf", 10485761)) == TooLarge
  {
    PdfMimeTypePasses();
  }

  /** The type is checked first: a file failing both guards reports the type. */
  lemma TypeReportedFirst(file: PickedFile)
    requires !Contains(file.mimeType, "pdf") && file.size > MaxUploadBytes
    ensures RejectionAlert(Check(file)) == NotPdfAlert
  {
  }

  class UploadComponent {
    var isDragging: bool
    var uploadedFiles: seq<string>

    /** The constructor loads the uploaded document names; `loaded` is what the server returned,
        `None` when the call failed. */
    constructor(loaded: Option<seq<string>>)
      ensures !isDragging
      ensures uploadedFiles == if loaded.Some? then loaded.value else []
    {
      isDragging := false;
      uploadedFiles := if loaded.Some? then loaded.value else [];
    }

    /** `loadDocuments`. */
    method LoadDocuments(fetched: Option<seq<string>>)
      modifies this`uploadedFiles
      ensures uploadedFiles == if fetched.Some? then fetched.value else old(uploadedFiles)
    {
      if fetched.Some? {
        uploadedFiles := fetched.value;
      }
    }

    /** `onDragOver`: the drop zone is highlighted. */
    method OnDragOver()
      modifies this`isDragging
      ensures isDragging
    {
      isDragging := true;
    }

    /** `onDragLeave`: the highlight goes. */
    method OnDragLeave()
      modifies this`isDragging
      ensures !isDragging
    {
      isDragging := false;
    }

    /** `uploadFile`: a rejected file shows its alert and sends nothing. An accepted file is sent;
        `uploaded` is the outcome, and `reloaded` that of the document reload a success triggers. */
    method UploadFile(file: PickedFile, uploaded: bool, reloaded: Option<seq<string>>) returns (sent: bool, alert: Option<string>)
      modifies this`uploadedFiles
      ensures sent <==> Check(file) == Accepted
      ensures !sent ==> alert == Some(RejectionAlert(Check(file))) && uploadedFiles == old(uploadedFiles)
      ensures sent && uploaded ==>
        alert == None && uploadedFiles == (if reloaded.Some? then reloaded.value else old(uploadedFiles))
      ensures sent && !uploaded ==> alert == Some(UploadFailedAlert) && uploadedFiles == old(uploadedFiles)
    {
      if !Contains(file.mimeType, "pdf") {
        return false, Some(NotPdfAlert);
      }
      if file.size > MaxUploadBytes {
        return false, Some(TooLargeAlert);
      }
      sent := true;
      if uploaded {
        LoadDocuments(reloaded);
        alert := None;
      } else {
        alert := Some(UploadFailedAlert);
      }
    }

    /** `onDrop`: the highlight goes and only the first dropped file, if any, is uploaded. */
    method OnDrop(files: seq<PickedFile>, uploaded: bool, reloaded: Option<seq<string>>) returns (sent: bool, alert: Option<string>)
      modifies this`isDragging, this`uploadedFiles
      ensures !isDragging
      ensures files == [] ==> !sent && alert == None && uploadedFiles == old(uploadedFiles)
      ensures files != [] ==> (sent <==> Check(files[0]) == Accepted)
      ensures files != [] && !sent ==> alert == Some(RejectionAlert(Check(files[0]))) && uploadedFiles == old(uploadedFiles)
      ensures files != [] && sent && uploaded ==> alert == None && uploadedFiles == (if reloaded.Some? then reloaded.value else old(uploadedFiles))
      ensures files != [] && sent && !uploaded ==> alert == Some(UploadFailedAlert) && uploadedFiles == old(uploadedFiles)
    {
      isDragging := false;
      sent, alert := false, None;
      if |files| > 0 {
        sent, alert := UploadFile(files[0], uploaded, reloaded);
      }
    }

    /** `onFileSelected`: only the first chosen file, if any, is uploaded; the highlight is untouched. */
    method OnFileSelected(files: seq<PickedFile>, uploaded: bool, reloaded: Option<seq<string>>) returns (sent: bool, alert: Option<string>)
      modifies this`uploadedFiles
      ensures files == [] ==> !sent && alert == None && uploadedFiles == old(uploadedFiles)
      ensures files != [] ==> (sent <==> Check(files[0]) == Accepted)
      ensures files != [] && !sent ==> alert == Some(RejectionAlert(Check(files[0]))) && uploadedFiles == old(uploadedFiles)
      ensures files != [] && sent && uploaded ==> alert == None && uploadedFiles == (if reloaded.Some? then reloaded.value else old(uploadedFiles))
      ensures files != [] && sent && !uploaded ==> alert == Some(UploadFailedAlert) && uploadedFiles == old(uploadedFiles)
    {
      sent, alert := false, None;
      if |files| > 0 {
        sent, alert := UploadFile(files[0], uploaded, reloaded);
      }
    }
  }
}
