/**
 * The project page of the web client (project-detail.component.ts): the document
 * list, the toggle-membership document selection with its select-all button, the
 * question form and the single-file upload. Each server call is replaced by its
 * outcome, passed to the method that issues it.
 */
module ProjectDetail {
  import opened Wrappers
  import opened Strings
  import opened Sequences
  import opened Membership
  import opened Records

  /** The outcome of `askQuestion` on the server: the answer, or an error whose body may carry a `detail`. */
  datatype AskReply = Answered(answer: string) | AskFailed(detail: Option<string>)

  const ErrorPrefix := "Error: "
  const AskApology := "Sorry, " + "there was an error processing your question. Please try again."

  /** The document ids in document order (`documents.map(doc => doc.id)`). */
  function DocumentIds(docs: seq<Document>): seq<int> {
    seq(|docs|, i requires 0 <= i < |docs| => docs[i].id)
  }

  /** The select-all button's test: there are documents and as many selected ids as documents. */
  predicate AllSelected(docs: seq<Document>, selected: seq<int>) {
    |docs| > 0 && |selected| == |docs|
  }

  /** The answer shown when the question request fails: a present, non-empty detail is shown after
      "Error: ", anything else gives the fixed apology. The answer says which case it came from,
      the detail can be read back from it, and it is never empty. */
  function ErrorAnswer(detail: Option<string>): (answer: string)
    ensures StartsWith(answer, ErrorPrefix) <==> detail.Some? && detail.value != ""
    ensures detail.Some? && detail.value != "" ==> answer[|ErrorPrefix|..] == detail.value
    ensures answer != ""
  {
    assert AskApology[..|ErrorPrefix|] == "Sorry, ";
    if detail.Some? && detail.value != "" then
      assert (ErrorPrefix + detail.value)[..|ErrorPrefix|] == ErrorPrefix;
      ErrorPrefix + detail.value
    else AskApology
  }

  /** While the selection holds distinct ids of listed documents (which the page keeps, since only the
      checkboxes of listed documents toggle it), the length test means that every document is selected. */
  lemma AllSelectedMeansEvery(docs: seq<Document>, selected: seq<int>)
    requires Distinct(DocumentIds(docs)) && Distinct(selected)
    requires forall x :: x in selected ==> x in DocumentIds(docs)
    ensures AllSelected(docs, selected) <==> |docs| > 0 && forall d :: d in docs ==> d.id in selected
  {
    SameSizeSublist(selected, DocumentIds(docs));
    EveryDocumentSelected(docs, selected);
  }

  /** Every document is selected exactly when every listed id is. */
  lemma EveryDocumentSelected(docs: seq<Document>, selected: seq<int>)
    ensures (forall d :: d in docs ==> d.id in selected) <==> forall x :: x in DocumentIds(docs) ==> x in selected
  {
    var ids := DocumentIds(docs);
    forall x | x in ids
      ensures exists d :: d in docs && d.id == x
    {
      var i :| 0 <= i < |ids| && ids[i] == x;
      assert docs[i] in docs;
    }
    forall d | d in docs
      ensures d.id in ids
    {
      var i :| 0 <= i < |docs| && docs[i] == d;
      assert ids[i] == d.id;
    }
  }

  /** Without the proviso the length test can be fooled: a selection holding an id that is no longer
      listed reads as "all selected" while a listed document is not selected. */
  lemma StaleSelectionReadsAsAll()
    ensures var docs := [Document(1, "a.pdf"), Document(2, "b.pdf")];
      AllSelected(docs, [1, 7]) && Document(2, "b.pdf") in docs && 2 !in [1, 7]
  {
  }

  class ProjectDetailComponent {
    var project: Option<Project>
    var documents: seq<Document>
    var selectedFile: Option<PickedFile>
    var selectedDocuments: seq<int>
    var question: string
    var answer: string
    var showError: bool

    /** The field initialisers. */
    constructor()
      ensures project == None && documents == [] && selectedFile == None && selectedDocuments == []
      ensures question == "" && answer == "" && !showError
    {
      project := None;
      documents := [];
      selectedFile := None;
      selectedDocuments := [];
      question := "";
      answer := "";
      showError := false;
    }

    /** The `allDocumentsSelected` getter. */
    predicate AllDocumentsSelected()
      reads this
    {
      AllSelected(documents, selectedDocuments)
    }

    /** `loadProject`: `fetched` is the project the server returned, `None` when the call failed
        (which only logs). */
    method LoadProject(fetched: Option<Project>)
      modifies this`project
      ensures project == if fetched.Some? then fetched else old(project)
    {
      if fetched.Some? {
        project := fetched;
      }
    }

    /** `loadDocuments`: `fetched` is the document list the server returned, `None` on failure. */
    method LoadDocuments(fetched: Option<seq<Document>>)
      modifies this`documents
      ensures documents == if fetched.Some? then fetched.value else old(documents)
    {
      if fetched.Some? {
        documents := fetched.value;
      }
    }

    /** `onFileSelected`: the first picked file, if any, becomes the selected file. */
    method OnFileSelected(files: seq<PickedFile>)
      modifies this`selectedFile
      ensures files != [] ==> selectedFile == Some(files[0])
      ensures files == [] ==> selectedFile == old(selectedFile)
    {
      if files != [] {
        selectedFile := Some(files[0]);
      }
    }

    /** `uploadDocument`: does nothing without a selected file or a project. Otherwise the upload is
        issued; `uploaded` is its outcome and `reloaded` the outcome of the document reload that a
        successful upload triggers. */
    method UploadDocument(uploaded: bool, reloaded: Option<seq<Document>>) returns (sent: bool)
      modifies this`selectedFile, this`documents
      ensures sent <==> old(selectedFile).Some? && project.Some?
      ensures sent && uploaded ==>
        selectedFile == None && documents == if reloaded.Some? then reloaded.value else old(documents)
      ensures !(sent && uploaded) ==> selectedFile == old(selectedFile) && documents == old(documents)
    {
      if selectedFile.None? || project.None? {
        return false;
      }
      sent := true;
      if uploaded {
        selectedFile := None;
        LoadDocuments(reloaded);
      }
    }

    /** `toggleDocument`: adds the id when it is not selected, removes it (its first occurrence) when it
        is, and clears the error flag. */
    method ToggleDocument(documentId: int)
      modifies this`selectedDocuments, this`showError
      ensures selectedDocuments == Toggled(old(selectedDocuments), documentId)
      ensures !showError
    {
      var index := IndexOf(selectedDocuments, documentId);
      if index == -1 {
        selectedDocuments := selectedDocuments + [documentId];
      } else {
        selectedDocuments := selectedDocuments[..index] + selectedDocuments[index + 1..];
      }
      showError := false;
    }

    /** `toggleAllDocuments`: clears a full selection, otherwise selects every document in document
        order; clears the error flag. */
    method ToggleAllDocuments()
      modifies this`selectedDocuments, this`showError
      ensures old(AllDocumentsSelected()) ==> selectedDocuments == []
      ensures !old(AllDocumentsSelected()) ==> selectedDocuments == DocumentIds(documents)
      ensures documents != [] ==> (AllDocumentsSelected() <==> !old(AllDocumentsSelected()))
      ensures !showError
    {
      if AllDocumentsSelected() {
        selectedDocuments := [];
      } else {
        selectedDocuments := DocumentIds(documents);
      }
      showError := false;
    }

    /** `askQuestion`: the error flag is raised exactly when the question is empty or nothing is
        selected, and then no request is sent; nor is one sent without a project. `reply` is the
        outcome of the request when it is sent. */
    method AskQuestion(reply: AskReply) returns (sent: bool)
      modifies this`showError, this`answer, this`question
      ensures showError <==> old(question) == "" || selectedDocuments == []
      ensures sent <==> !showError && project.Some?
      ensures !sent ==> answer == old(answer) && question == old(question)
      ensures sent && reply.Answered? ==> answer == reply.answer && question == ""
      ensures sent && reply.AskFailed? ==> answer == ErrorAnswer(reply.detail) && question == old(question)
    {
      showError := question == "" || |selectedDocuments| == 0;
      if showError {
        return false;
      }
      if project.None? || question == "" || |selectedDocuments| == 0 {
        return false;
      }
      sent := true;
      match reply {
        case Answered(a) =>
          answer := a;
          question := "";
        case AskFailed(detail) =>
          if detail.Some? && detail.value != "" {
            answer := ErrorPrefix + detail.value;
          } else {
            answer := AskApology;
          }
      }
    }
  }
}
