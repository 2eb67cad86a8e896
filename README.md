# Document assistant: a verified model of its client-side logic

The system is a document assistant in two parts. A desktop recorder (windows.py) transcribes
speech and cleans up the transcript. A web application lets users upload PDFs, group them in
projects, ask questions about them, chat with the assistant and keep notes. The Python side also
turns PDFs into text (extract_text.py) and splits that text into retrieval documents
(embeding.py).

This project models the parts of both that make decisions, not the parts that do I/O:

- the transcript clean-up, the button shade computation, model-name lookup, the AutoShare
  configuration list, the double-press hotkey and shortcut capture of the recorder;
- the table, page and folder text assembly of the PDF pipeline, and the chunk filter;
- the Angular components' state: document selection and question form, text list
  reconciliation, the upload gate and drop zone, the chat log, the project cards, stored
  authentication state and the HTTP interceptor.

Every network call, PDF library call and Qt dialog is replaced by its outcome. The outcome is a
parameter of the method that issues the call: a returned record, `None` for a failure, or a
boolean success flag. A component class keeps the component's fields and its methods state
their whole new state. Pure computations are functions, with the source's promises proved as
lemmas about them. Loops in the source are `while` loops proved against those functions.

Modules follow the source files: `Transcript`, `ButtonColors`, `Settings`, `AutoShare` and
`Hotkeys` (windows.py); `ExtractText` (extract_text.py); `Embedding` (embeding.py);
`ProjectDetail`, `TextEditor`, `Upload`, `Chat`, `ProjectList` and `Auth` (the web client).
`Membership` holds the toggle-membership list shared by two components. `Records` holds the
server record shapes. `Strings`, `Sequences` and `Wrappers` are helpers: Python and JavaScript
string built-ins, sequence facts, and `Option`.

## Model

| member | source | states |
|---|---|---|
| Transcript.RemoveDuplicates | windows.py:1238-1260 | The nested scan returns exactly the clean-up defined piece by piece: survivors joined by ". " |
| Transcript.KeptSentencesExactly | windows.py:1243-1258 | A string is kept iff it is the stripped form of a non-blank piece that no other non-blank piece contains |
| Transcript.KeptUpToMembers | windows.py:1243-1258 | Among the first n pieces, the kept list holds exactly the stripped survivors |
| Transcript.KeptSentenceShape | windows.py:1240-1247 | Every kept sentence is non-empty and contains no '.' |
| Transcript.RepeatedSentenceDropped | windows.py:1250-1255 | A sentence that occurs at two positions (after stripping) is dropped entirely, both copies |
| Transcript.ExactDuplicateExample | windows.py:1238-1260 | "Hello. Hello" cleans to the empty string |
| Transcript.HelloPieces | windows.py:1240 | "Hello. Hello" splits at '.' into "Hello" and " Hello" |
| Transcript.HelloStripped | windows.py:1245 | Both pieces strip to "Hello" |
| Transcript.ContainsStripped | windows.py:1245-1253 | A stripped piece occurs inside the unstripped piece |
| Transcript.ContainsSelf | windows.py:1253 | A string occurs inside itself, for Python's `in` on strings |
| Transcript.KeptSentences | windows.py:1240-1258 | At most one sentence is kept per piece of the split at '.' |
| Transcript.Cleaned | windows.py:1238-1260 | The cleaned text is empty iff no sentence survives, and it never ends in '.' |
| ButtonColors.AdjustColorEncodesChannels | windows.py:87-91 | A successful shade is '#' and six hex digits that read back as the three scaled, truncated, clamped channels |
| ButtonColors.UnitFactorIdentity | windows.py:87-91 | A factor of exactly 1 leaves any lower-case "#rrggbb" colour unchanged |
| ButtonColors.ShortColorRejected | windows.py:89 | Fewer than five characters after the '#' make `int(..., 16)` fail |
| ButtonColors.Hex2RoundTrip | windows.py:91 | A byte printed with `02x` reads back as the same byte |
| ButtonColors.LowerPairRoundTrip | windows.py:89-91 | Two lower-case hex digits read as a byte and print back as the same two digits |
| ButtonColors.UnitChannel | windows.py:89-91 | One lower-case channel scaled by 1 prints back as itself |
| ButtonColors.LeadingHashDropped | windows.py:88 | `lstrip('#')` removes exactly the single leading '#' of a colour |
| ButtonColors.Clamp | windows.py:90 | The clamped value is 0 below 0, 255 above 255 and the input itself inside 0..255 |
| ButtonColors.Hex2 | windows.py:91 | `02x` of a byte has two characters |
| ButtonColors.LowerHexDigit | windows.py:91 | The printed digit is lower-case and has the value printed |
| ButtonColors.HexDigitValue | windows.py:89 | A hex digit's value is below 16 |
| ButtonColors.AdjustColor | windows.py:87-91 | A shade is produced iff all three two-character slices after the stripped '#' parse as hex, and every shade is a lower-case "#rrggbb" colour |
| ButtonColors.ParseHex | windows.py:89 | A slice parses only when it is not blank; a negative value needs a leading '-'; a slice of at most two characters reads as a value in -15..255 |
| ButtonColors.Scale | windows.py:90 | `int(x * factor)` truncates toward zero: a non-negative product p gives r with r·den <= p < (r+1)·den, a negative one the mirror image; a factor equal to 1 returns x |
| Settings.ModelName | windows.py:198-202 | The first display name whose identifier matches, and "Rapide" when none does |
| Settings.SelectedModel | windows.py:207-209 | The identifier of the first entry with that name, and the turbo model for an unknown name |
| Settings.ModelRoundTrip | windows.py:198-209 | With distinct names and identifiers, showing a model and reading the selection back gives that model |
| Settings.UnknownModelFallsBack | windows.py:1065-1075 | In the default table an unknown identifier shows as "Rapide" and reads back as the turbo model |
| AutoShare.AutoShareDialog.constructor | windows.py:241-242 | The dialog starts with the given users and configurations |
| AutoShare.AutoShareDialog.AddConfig | windows.py:322-339 | No selection or an already configured user warns and changes nothing; otherwise exactly one configuration is appended; distinct user ids stay distinct |
| AutoShare.AutoShareDialog.RemoveConfig | windows.py:341-350 | No selection warns and changes nothing; otherwise every configuration of a selected user goes and the rest keep their order |
| AutoShare.WithoutUsersMembers | windows.py:347-349 | A configuration survives removal iff it was present and its user was not selected |
| AutoShare.WithoutUsersDistinct | windows.py:347-349 | Removal keeps user ids pairwise distinct |
| AutoShare.WithoutUsersStep | windows.py:347-349 | Filtering one more selected user after a batch is filtering the enlarged batch |
| AutoShare.WithoutUserAppend | windows.py:349 | The per-user filter distributes over concatenation |
| AutoShare.WithoutNobody | windows.py:347-349 | Removing no user changes nothing |
| AutoShare.IdSet | windows.py:347-348 | The set holds exactly the selected ids |
| AutoShare.UserName | windows.py:316 | The first user with the id gives the name, and "Utilisateur Inconnu" when there is none |
| AutoShare.ConfigRows | windows.py:313-320 | One row per configuration, in order, reading "username - accessType" and carrying the user id |
| AutoShare.WithoutUsers | windows.py:347-349 | Removal never lengthens the list and leaves no configuration of a selected user |
| AutoShare.AutoShareDialog.Rows | windows.py:313-320 | After a refresh the widget shows one row per current configuration, in order, reading "username - accessType" and carrying the user id |
| Hotkeys.Recorder.constructor | windows.py:625-639 | No token, not recording, no recorder thread, previous press at time 0 |
| Hotkeys.Recorder.OnHotkeyTriggered | windows.py:1123-1128 | Recording toggles iff the gap since the previous press is under 500 ms; every press becomes the previous press |
| Hotkeys.Recorder.ToggleRecording | windows.py:1130-1138 | Without a token, an error and no change of recording state; with one, recording flips |
| Hotkeys.Recorder.StartRecording | windows.py:1168-1184 | Once a token is present, recording starts with a recorder thread |
| Hotkeys.Recorder.StopRecording | windows.py:1186-1195 | Recording stops only when a recorder thread exists |
| Hotkeys.DoublePressScenario | windows.py:1123-1128 | Two presses at t1 then t2 leave recording on iff t2 - t1 < 500 |
| Hotkeys.ShortcutDialog.constructor | windows.py:529-535 | The current shortcut is kept, no new shortcut, not listening |
| Hotkeys.ShortcutDialog.ToggleListening | windows.py:576-580 | Listening flips |
| Hotkeys.ShortcutDialog.OnKey | windows.py:590-597 | A key is accepted iff listening and its upper-cased name is no modifier and is one character long or starts with 'F'; acceptance stores the upper-cased name and stops listening; otherwise nothing changes |
| Hotkeys.ShortcutDialog.Close | windows.py:611-613 | Closing stops listening |
| Hotkeys.StoredShortcutAccepted | windows.py:590-597 | A stored shortcut is itself acceptable and never a modifier name |
| Hotkeys.UpperAsciiIdempotent | windows.py:592 | Upper-casing twice is upper-casing once |
| Hotkeys.ShiftRefused | windows.py:593 | "shift" and "Shift" are refused |
| Hotkeys.FunctionKeyAccepted | windows.py:594 | "f12" is accepted |
| Hotkeys.SpaceRefused | windows.py:594 | "space" is refused: longer than one character and not starting with 'F' |
| Hotkeys.AcceptsKey | windows.py:590-597 | Defined as the `on_key` test: the upper-cased name is no modifier and is one character long or starts with 'F'; it has no contract of its own, and StoredShortcutAccepted, ShiftRefused, FunctionKeyAccepted and SpaceRefused state its properties |
| ExtractText.TableConverter | extract_text.py:192-202 | The row loop and `rstrip('\n')` return the row lines joined by newlines, and "" when a cell raises |
| ExtractText.TableStep | extract_text.py:195-197 | Each row adds its line and one newline to the accumulated text |
| ExtractText.TableFinish | extract_text.py:198 | Stripping trailing newlines leaves the row lines joined by newlines, without a trailing one |
| ExtractText.TableOneLinePerRow | extract_text.py:195-198 | The rendered table splits at '\n' into exactly one `\|c1\|...\|cn\|` line per row |
| ExtractText.TableEdgeCases | extract_text.py:193-202 | An empty table, and a table with a cell that raises, render as "" |
| ExtractText.CellExamples | extract_text.py:196 | A None cell renders as "None" and a line break inside a cell as a space |
| ExtractText.CleanRow | extract_text.py:196 | One cleaned cell per cell, each as the comprehension gives it and none containing '\n' |
| ExtractText.SpaceNewlines | extract_text.py:196 | `replace('\n', ' ')` keeps the length, replaces exactly the line breaks and leaves none |
| ExtractText.RowLines | extract_text.py:197 | One line per row, in row order |
| ExtractText.JoinEndsWithLast | extract_text.py:197-198 | A join of row lines ends in '\|', so `rstrip` removes only the last newline |
| ExtractText.NoNewlineInJoin | extract_text.py:196-197 | A join of newline-free cells is newline-free |
| ExtractText.ExtractTextFromPdf | extract_text.py:104-116 | A failed read yields no text (the re-raise); otherwise each page's text, or "" when it has none, followed by one newline |
| ExtractText.PdfTextPages | extract_text.py:108-111 | For newline-free pages the text splits back into the page texts and one final empty piece |
| ExtractText.PdfTextAsJoin | extract_text.py:108-111 | The PDF text is the page texts and a final empty piece joined by newlines |
| ExtractText.ExtractTextFromFolder | extract_text.py:118-139 | The combined text holds one section per readable '.pdf' entry in listing order, and is returned whether or not writing succeeds |
| ExtractText.FolderTextAppend | extract_text.py:121-130 | The text of two listings in sequence is the two texts in sequence |
| ExtractText.FolderTextSnoc | extract_text.py:121-127 | One more entry appends its section at the end |
| ExtractText.SkippedEntries | extract_text.py:122-130 | A non-PDF name or a failing file leaves the text as it was |
| ExtractText.ExtractTextFromPdfOnly | extract_text.py:21-102 | A file that does not open gives ""; when every page has content, the result is all content items in page order, joined by newlines |
| ExtractText.CombinePagesFlat | extract_text.py:101 | When no page is empty the nested join equals one join of all items |
| ExtractText.CombinePagesFlatIfFull | extract_text.py:101 | The same, stated for every page list |
| ExtractText.PageJoins | extract_text.py:101 | One joined string per page, in page order |
| ExtractText.FlattenNonEmpty | extract_text.py:101 | Pages with content give at least one item |
| ExtractText.CleanCell | extract_text.py:196 | Only a cell that is neither None nor a string raises; a cleaned cell holds no '\n'; a one-line string is kept as it is |
| ExtractText.RenderedTable | extract_text.py:192-202 | A table with a raising cell gives ""; a non-empty renderable table ends in '\|', with no trailing newline |
| ExtractText.PdfText | extract_text.py:108-111 | A PDF without pages gives ""; otherwise the text ends in a newline |
| ExtractText.FolderText | extract_text.py:118-139 | Defined as every entry's block concatenated in listing order; it has no contract of its own, and ExtractTextFromFolder, FolderTextAppend, FolderTextSnoc and NoReadablePdfNoText state its properties |
| ExtractText.NoReadablePdfNoText | extract_text.py:121-130 | A listing with no readable '.pdf' entry gives the empty text |
| Embedding.KeptDocuments | embeding.py:57-58 | Every document has a stripped length of at least 50 and the given source; every chunk that long becomes a document with its unstripped text; never more documents than chunks |
| Embedding.CreateDocuments | embeding.py:54-63 | A chunk on which `strip()` raises gives []; otherwise the filtered documents |
| Embedding.ContentsInOrder | embeding.py:58 | The documents' contents are a subsequence of the chunks, unstripped, in input order |
| Embedding.DefaultSourceTag | embeding.py:54 | Without a source argument every document is tagged "extracted_text.txt" |
| Embedding.Texts | embeding.py:58 | One text per chunk, in order |
| Embedding.Contents | embeding.py:58 | One content per document, in order |
| Embedding.KeptMultiplicity | embeding.py:57-58 | Each text occurs among the documents' contents exactly as often as among the chunks when its stripped length is at least 50, and not at all otherwise |
| Embedding.Meaningful | embeding.py:58 | Defined as a stripped length of at least 50; it has no contract of its own, and KeptDocuments and KeptMultiplicity state its use |
| Membership.IndexOf | frontend/src/app/components/project-detail/project-detail.component.ts:210 | -1 iff the id is absent, otherwise its first position |
| Membership.FirstIndex | frontend/src/app/components/project-detail/project-detail.component.ts:210 | The first position holding the id |
| Membership.FirstIndexUnique | frontend/src/app/components/project-detail/project-detail.component.ts:210 | A position holding the id with no earlier copy is the first position |
| Membership.ToggledContents | frontend/src/app/components/project-detail/project-detail.component.ts:209-217 | A toggle adds one copy of an absent id or removes one copy of a present one; nothing else changes |
| Membership.ToggledMembership | frontend/src/app/components/project-detail/project-detail.component.ts:209-217 | On a list without repeats the id's membership flips and every other id's is kept |
| Membership.ToggledDistinct | frontend/src/app/components/project-detail/project-detail.component.ts:209-217 | A toggle never creates a repeat |
| Membership.DistinctCount | frontend/src/app/components/project-detail/project-detail.component.ts:214 | In a list without repeats each element occurs once |
| Membership.ToggleTwiceAbsent | frontend/src/app/components/project-detail/project-detail.component.ts:209-217 | Toggling an absent id twice restores the list exactly |
| Membership.ToggleTwiceMembership | frontend/src/app/components/project-detail/project-detail.component.ts:209-217 | On a list without repeats, toggling twice restores every id's membership |
| Membership.Toggled | frontend/src/app/components/project-detail/project-detail.component.ts:209-217 | A toggle shortens the list by one when the id is present and lengthens it by one when it is absent |
| ProjectDetail.ProjectDetailComponent.constructor | frontend/src/app/components/project-detail/project-detail.component.ts:138-144 | The field initialisers |
| ProjectDetail.ProjectDetailComponent.LoadProject | frontend/src/app/components/project-detail/project-detail.component.ts:163-172 | A fetched project is stored; a failure changes nothing |
| ProjectDetail.ProjectDetailComponent.LoadDocuments | frontend/src/app/components/project-detail/project-detail.component.ts:174-183 | A fetched list is stored; a failure changes nothing |
| ProjectDetail.ProjectDetailComponent.OnFileSelected | frontend/src/app/components/project-detail/project-detail.component.ts:185-190 | The first picked file becomes the selected file; no file changes nothing |
| ProjectDetail.ProjectDetailComponent.UploadDocument | frontend/src/app/components/project-detail/project-detail.component.ts:192-207 | Sent iff a file and a project are present; success clears the file and reloads the documents; otherwise nothing changes |
| ProjectDetail.ProjectDetailComponent.ToggleDocument | frontend/src/app/components/project-detail/project-detail.component.ts:209-217 | The selection is toggled at the id and the error flag cleared |
| ProjectDetail.ProjectDetailComponent.ToggleAllDocuments | frontend/src/app/components/project-detail/project-detail.component.ts:219-226 | A full selection is emptied, otherwise every document id is selected in document order; with documents, the select-all state flips |
| ProjectDetail.ProjectDetailComponent.AskQuestion | frontend/src/app/components/project-detail/project-detail.component.ts:228-258 | The error flag is raised iff the question is empty or nothing is selected; sent iff no error and a project exists; an answer replaces the answer and clears the question; a failure shows the error answer |
| ProjectDetail.ErrorAnswer | frontend/src/app/components/project-detail/project-detail.component.ts:248-256 | The error answer starts with "Error: " iff a non-empty detail came back, the detail reads back from it, and it is never empty |
| ProjectDetail.AllSelectedMeansEvery | frontend/src/app/components/project-detail/project-detail.component.ts:146-149 | For distinct ids of listed documents, the length test holds iff there are documents and every one is selected |
| ProjectDetail.EveryDocumentSelected | frontend/src/app/components/project-detail/project-detail.component.ts:146-149 | Every document is selected iff every listed id is |
| ProjectDetail.StaleSelectionReadsAsAll | frontend/src/app/components/project-detail/project-detail.component.ts:146-149 | The length test alone reads a selection with an unlisted id as "all selected" |
| ProjectDetail.AllSelected | frontend/src/app/components/project-detail/project-detail.component.ts:146-149 | Defined as the length test: there are documents and as many selected ids as documents; it has no contract of its own, and AllSelectedMeansEvery and StaleSelectionReadsAsAll state what it means |
| TextEditor.TextEditorComponent.constructor | frontend/src/app/components/text-editor/text-editor.component.ts:101-110 | The field initialisers |
| TextEditor.TextEditorComponent.LoadTexts | frontend/src/app/components/text-editor/text-editor.component.ts:122-131 | A fetched list is stored; a failure changes nothing |
| TextEditor.TextEditorComponent.EditText | frontend/src/app/components/text-editor/text-editor.component.ts:144-151 | The text is edited with its title and content and no project |
| TextEditor.TextEditorComponent.CancelEdit | frontend/src/app/components/text-editor/text-editor.component.ts:202-210 | Nothing is edited, the form is hidden and emptied, and no project is selected |
| TextEditor.TextEditorComponent.ToggleProject | frontend/src/app/components/text-editor/text-editor.component.ts:216-223 | The draft's project list is toggled at the id; title and content are untouched |
| TextEditor.TextEditorComponent.DeleteText | frontend/src/app/components/text-editor/text-editor.component.ts:153-164 | The request is sent iff confirmed; success removes every text with the id; otherwise the list is unchanged |
| TextEditor.TextEditorComponent.SaveText | frontend/src/app/components/text-editor/text-editor.component.ts:166-200 | An edit sends an update, otherwise a creation, with the draft's fields; an update reply replaces the first text with its id; a created text is appended; a reply closes the form; a failure changes nothing |
| TextEditor.FindIndexById | frontend/src/app/components/text-editor/text-editor.component.ts:175 | -1 iff no text has the id, otherwise the first position with it |
| TextEditor.WithoutIdMembers | frontend/src/app/components/text-editor/text-editor.component.ts:157 | Deletion keeps exactly the texts with another id |
| TextEditor.WithoutIdInOrder | frontend/src/app/components/text-editor/text-editor.component.ts:157 | Deletion keeps the remaining texts in their order |
| TextEditor.WithoutAbsentId | frontend/src/app/components/text-editor/text-editor.component.ts:157 | Deleting an unlisted id changes nothing |
| TextEditor.ReconciledReplacesFirst | frontend/src/app/components/text-editor/text-editor.component.ts:174-178 | An update reply replaces the first text with its id and no other entry |
| TextEditor.ReconciledUnknownId | frontend/src/app/components/text-editor/text-editor.component.ts:175-176 | An update reply with an unlisted id changes nothing |
| TextEditor.ReconciledKeepsIds | frontend/src/app/components/text-editor/text-editor.component.ts:174-178 | An update reply keeps the length and the id at every position |
| TextEditor.WithoutId | frontend/src/app/components/text-editor/text-editor.component.ts:157 | Deletion never lengthens the list and leaves no text with the deleted id |
| TextEditor.Reconciled | frontend/src/app/components/text-editor/text-editor.component.ts:174-178 | An update reply keeps the length, and the returned record is in the list whenever its id was |
| Upload.Check | frontend/src/app/components/upload/upload.component.ts:131-141 | Rejected as not a PDF iff the MIME type lacks "pdf"; too large iff it has "pdf" and exceeds 10 MiB; accepted otherwise |
| Upload.PdfMimeTypePasses | frontend/src/app/components/upload/upload.component.ts:132 | "application/pdf" passes the type guard |
| Upload.SizeBoundInclusive | frontend/src/app/components/upload/upload.component.ts:137 | Exactly 10 MiB is accepted, one byte more is too large |
| Upload.TypeReportedFirst | frontend/src/app/components/upload/upload.component.ts:132-140 | A file failing both guards reports the type |
| Upload.UploadComponent.constructor | frontend/src/app/components/upload/upload.component.ts:79-87 | Not dragging; the loaded document names, or none when the load fails |
| Upload.UploadComponent.LoadDocuments | frontend/src/app/components/upload/upload.component.ts:89-98 | A fetched list is stored; a failure changes nothing |
| Upload.UploadComponent.OnDragOver | frontend/src/app/components/upload/upload.component.ts:100-104 | The drop zone is highlighted |
| Upload.UploadComponent.OnDragLeave | frontend/src/app/components/upload/upload.component.ts:106-110 | The highlight goes |
| Upload.UploadComponent.UploadFile | frontend/src/app/components/upload/upload.component.ts:131-152 | Sent iff accepted by the gate; a rejection shows its alert and changes nothing; success reloads the list; failure shows the failure alert |
| Upload.UploadComponent.OnDrop | frontend/src/app/components/upload/upload.component.ts:112-121 | The highlight goes; an empty drop does nothing; otherwise the first dropped file goes through `uploadFile`: a rejection shows its alert, a failed upload the failure alert, a successful one reloads the list, and only a successful reload changes it |
| Upload.UploadComponent.OnFileSelected | frontend/src/app/components/upload/upload.component.ts:123-129 | An empty choice does nothing; otherwise the first chosen file goes through `uploadFile`: a rejection shows its alert, a failed upload the failure alert, a successful one reloads the list, and only a successful reload changes it |
| Upload.RejectionAlert | frontend/src/app/components/upload/upload.component.ts:131-141 | The type alert is shown exactly for a file that is not a PDF, the size alert exactly for one that is too large |
| Chat.ChatComponent.constructor | frontend/src/app/pages/chat/chat.component.ts:102-111 | The log holds only the assistant's greeting; no documents; empty input |
| Chat.ChatComponent.LoadActiveDocuments | frontend/src/app/pages/chat/chat.component.ts:119-128 | A fetched list is stored; a failure changes nothing |
| Chat.ChatComponent.SendMessage | frontend/src/app/pages/chat/chat.component.ts:130-161 | A blank message changes nothing and sends nothing; otherwise the untrimmed text is logged as the user's, sent, the input cleared, and the reply or the apology logged; the greeting stays first and no user message is blank |
| Chat.ChatComponent.OnEnter | frontend/src/app/pages/chat/chat.component.ts:163-169 | Enter sends as above; Shift+Enter does nothing |
| Chat.BlankMessageIgnored | frontend/src/app/pages/chat/chat.component.ts:131 | A message of spaces and line breaks sends nothing and leaves the greeting alone in the log |
| Chat.OneUserTextPerSend | frontend/src/app/pages/chat/chat.component.ts:134-158 | One exchange adds exactly the sent text, untrimmed, to the user's messages |
| Chat.UserTextsAppend | frontend/src/app/pages/chat/chat.component.ts:134-158 | The user's messages of a longer log are those of its parts |
| Chat.ReplyMessage | frontend/src/app/pages/chat/chat.component.ts:145-158 | The reply, or the apology, is never the user's message |
| ProjectList.ProjectListComponent.constructor | frontend/src/app/components/project-list/project-list.component.ts:94-100 | The field initialisers |
| ProjectList.ProjectListComponent.LoadProjectStats | frontend/src/app/components/project-list/project-list.component.ts:123-142 | The cards are emptied, then one card per reply is added in arrival order; never more cards than projects |
| ProjectList.ProjectListComponent.LoadProjects | frontend/src/app/components/project-list/project-list.component.ts:111-121 | Fetched projects are stored and their cards rebuilt; a failure changes nothing |
| ProjectList.ProjectListComponent.CreateProject | frontend/src/app/components/project-list/project-list.component.ts:144-157 | An empty name sends nothing; success hides the dialog, empties the form and reloads; failure changes nothing |
| ProjectList.StatsEntries | frontend/src/app/components/project-list/project-list.component.ts:127-138 | Each card copies its project and carries the document count, or 0 after an error |
| ProjectList.StatsBounded | frontend/src/app/components/project-list/project-list.component.ts:124-141 | There are never more cards than projects |
| ProjectList.OneCardPerProject | frontend/src/app/components/project-list/project-list.component.ts:125-126 | No project has two cards |
| Auth.TokenStore.constructor | frontend/src/app/services/auth.service.ts:15 | The stored token, or none |
| Auth.Authorized | frontend/src/app/interceptors/auth.interceptor.ts:19-35 | With a non-empty token the header is "Bearer " and the token, which reads back; without one the request is unchanged; other headers and the URL are kept |
| Auth.AuthorizedIdempotent | frontend/src/app/interceptors/auth.interceptor.ts:19-22 | Attaching the header twice is attaching it once |
| Auth.Intercept | frontend/src/app/interceptors/auth.interceptor.ts:12-36 | The forwarded request is the authorised one; with a token, a 401 removes it and navigates to "/login"; every answer is passed on; otherwise the token stays |
| Auth.AuthService.constructor | frontend/src/app/services/auth.service.ts:14-19 | The user is loaded only when a token is stored |
| Auth.AuthService.LoadCurrentUser | frontend/src/app/services/auth.service.ts:44-60 | No token clears the user and sends nothing; otherwise "/me" is asked with the bearer header; success sets the user; failure removes the token and clears the user |
| Auth.AuthService.Login | frontend/src/app/services/auth.service.ts:36-41 | A successful login stores the token before loading the user; a failed login changes nothing |
| Auth.AuthService.Logout | frontend/src/app/services/auth.service.ts:62-65 | The token is removed, the user cleared, and the user is no longer authenticated |

`IsAuthenticated` (frontend/src/app/services/auth.service.ts:71-74) is a present, non-empty stored
token, written as `Wrappers.HasToken`; `isProjectSelected` (text-editor.component.ts:212-214) is
membership in the draft's project list. These predicates have no contract of their own; the rows
above carry their properties.

## Left out

- I/O of every kind: Qt widgets, dialogs, styling and icons; keyboard hooks and clipboard
  paste; HTTP calls; localStorage beyond one optional token; files written to disk. The
  outcome of each call is a method parameter.
- PDF and OCR libraries (PyPDF2, pdfplumber, pdfminer, pdf2image, pytesseract). Their results
  (page texts, table cells, per-page content lists, folder listings) are inputs. The parts of
  `extract_text_from_pdf_only` that sort elements and call table and image extraction are left
  out; only its opening failure and its final join are modelled.
- Threads and audio: `RecorderThread`, its chunk queue and streaming. `StartRecording` stands
  for `start_recording` after `check_and_refresh_token` has found a token. The automatic
  re-login inside `check_and_refresh_token` is left out.
- Hotkeys.Recorder.OnHotkeyTriggered: `time.time()` is a float of seconds. The model uses
  integer milliseconds and `now - last < 500`.
- ButtonColors.AdjustColor: the float factor is a rational `num/den` and `int()` truncates
  toward zero. `int(x, 16)` accepts surrounding whitespace, a sign and hex digits. Python's
  underscores in numerals and non-ASCII digits are not modelled.
- Hotkeys.AcceptsKey: `str.upper` is modelled for ASCII letters only.
- Strings: Python's `str.strip` and JavaScript's `trim` are modelled by their whitespace sets,
  listed as code points.
- Asynchrony: a component method receives its server reply together with the request. The
  code between sending and the reply is assumed not to run other handlers.
- ProjectList.ProjectListComponent.LoadProjectStats: replies are given in arrival order.
  `RepliesFor` assumes each reply answers one request of the current load. A late reply from an
  earlier load that lands after a reload is not modelled. Without that assumption the source
  can show more cards than projects.
- Auth.Authorized: request headers are a map with case-sensitive names. Angular's `HttpHeaders`
  looks names up case-insensitively, so a header spelled "authorization" would be a separate key
  in the model but the same header in Angular.
- ProjectDetail.ErrorAnswer: the error body's `detail` is modelled as an optional string. A
  FastAPI `detail` can be another truthy value, such as the list a validation error carries, which
  the template interpolation prints in its own way; that case is not modelled.
- Chat: message timestamps (`new Date()`) are left out.
- The chat's `ragService`, the project, text and chat services, and the neurocore service are
  thin URL wrappers and are not modelled.
- Interceptor: main.ts registers the functional `AuthInterceptor` with `HTTP_INTERCEPTORS`
  and `useClass`. Whether Angular then runs it is not modelled; the model covers the function.
  The interceptor's interaction with the service's own `/me` request is not modelled.
- Routing and navigation: `navigateToProject`, `startChat`, routes. `Intercept` returns the
  route it would navigate to.
- The text editor's `loadProjects` fills a list used only for display and is not modelled.
- The login, register, chat-history and home components and pages/upload only delegate
  to services, navigate or render. app.py, models.py and schemas.py are server plumbing.
- `embeding.py` other than `create_documents`: LangChain, HuggingFace and torch wrappers.
- A folder tree, folder navigation, debounced auto-save and summarisation polling do not
  appear in the source and are not modelled.
