# Lucen: a verified model of the case workflow and the drafting editor

Lucen is a patent-drafting service. A law firm opens a case for a client and
sends the client a secure link. Through that link the client fills in and
submits an invention disclosure (the IDD) and later reviews documents the firm
shares. The firm analyses prior art against the disclosure and builds a
retrieval memory from it. It then drafts the application in a rich-text
editor, whose AI commands (a `//` line, or a bubble-menu action on a
selection) put a placeholder in the document that the reply later replaces.
Drafts are auto-saved after two seconds of quiet and kept as versions.

This project models that core in Dafny, module by module:

| module | models |
|---|---|
| `Common` | option and reply types, the HTTP status codes used |
| `Text` | the JavaScript string operations used (`indexOf`, replace-first, `split`, `join`, `trim`, `/\n/g` replacement, number to decimal) |
| `Ordering` | filtering and `ORDER BY ... DESC` on sequences |
| `Tables` | the database rows, the case status labels, the token lookup, and the `Db` class holding the tables |
| `Auth` | the bearer-token middleware |
| `SlashCommand` | the editor's `//` key handler |
| `Autosave` | the save indicator and its debounced timer, on a logical clock |
| `Editor` | the bubble-menu instruction, the command's target span, the placeholder and its resolution, and a `DocumentEditor` class whose methods change the document |
| `Rag` | the text chunker (a `while` loop over offsets) and `buildMemoryForCase` |
| `Drafts` | milestones, history, version content, the latest draft, and the two stored procedures as given results |
| `Storage` | upload paths and the join of documents with signed links |
| `Idd` | the client-link handlers |
| `Cases` | the firm's case handlers |
| `Documents` | sharing a document with the client |
| `PriorArt` | storing an AI prior-art analysis, and the firm's verdict on it |

Handlers that change tables are methods on a `Db` object. Each method's
`modifies` clause names the tables it may write. Its `ensures` clauses give
the reply and the new tables for every path: validation failures, failed
ownership or token checks, database faults, and success. A fault is given as a
boolean or optional parameter. The same goes for the values the server takes
from outside: the clock (`now`), fresh ids and tokens, the AI model's parsed
answer, the embedding function, decryption, and the storage service's
signed-link answer. Read-only handlers are functions of the tables. Listings
with no `ORDER BY` are sets. Ids generated by the database are parameters
that the method requires to be fresh.

## Model

| member | source | states |
|---|---|---|
| Tables.StatusRoundTrip | lucen-backend/controllers/caseController.js:264-268 | every status label parses back to its own status, so labels are distinct |
| Tables.CaseByToken | lucen-backend/controllers/iddController.js:14-27 | `.single()` on the token finds a case only when exactly one case carries the token; otherwise every carrier has a twin |
| Text.IndexOf | lucen-frontend/src/components/MasterDocumentEditor.jsx:141 | gives the first occurrence of the pattern, and none exactly when there is no occurrence |
| Text.Splice | lucen-frontend/src/components/MasterDocumentEditor.jsx:107-113 | deleting a span and inserting text keeps the text before and after the span |
| Text.ReplaceFirstAt | lucen-frontend/src/components/MasterDocumentEditor.jsx:141-155 | when the first occurrence is the one after `a`, replacing it keeps `a` and `b` unchanged |
| Text.ReplaceFirstAbsent | lucen-frontend/src/components/MasterDocumentEditor.jsx:143 | with no occurrence, the text is unchanged |
| Text.Split | lucen-backend/middleware/authMiddleware.js:16 | `split` gives at least one field, and no field contains the separator |
| Text.SplitJoin | lucen-frontend/src/components/MasterDocumentEditor.jsx:153 | splitting a join of separator-free pieces gives back those pieces |
| Text.ReplaceCharIsJoinOfSplit | lucen-frontend/src/components/MasterDocumentEditor.jsx:153 | replacing every `\n` is splitting on `\n` and joining with the replacement |
| Text.Trim | lucen-frontend/src/lib/tiptap/SlashCommand.js:31 | the result has no white space at either end |
| Text.TrimOfPadded | lucen-frontend/src/lib/tiptap/SlashCommand.js:31 | trimming removes exactly the white space around a trimmed core |
| Text.TrimIdempotent | lucen-frontend/src/lib/tiptap/SlashCommand.js:31 | trimming twice is trimming once |
| Text.Decimal | lucen-backend/controllers/iddController.js:163 | `Date.now()` in a template literal is a non-empty run of digits |
| Text.ParseDecimalOfDecimal | lucen-backend/controllers/iddController.js:163 | the decimal text of a number reads back as that number |
| Ordering.SortDesc | lucen-backend/controllers/draftController.js:96 | the result is sorted newest first and is a permutation of the input |
| Ordering.Filter | lucen-backend/controllers/draftController.js:95 | `.eq` keeps exactly the rows that pass, with their multiplicities |
| Auth.TokenOf | lucen-backend/middleware/authMiddleware.js:15-16 | no header gives no token; a token from a non-empty header never contains a space |
| Auth.Authenticate | lucen-backend/middleware/authMiddleware.js:13-39 | 401 exactly when there is no token, 403 exactly when the verifier rejects it, otherwise `next` with the verifier's payload |
| Auth.TokenAfterAnyScheme | lucen-backend/middleware/authMiddleware.js:16 | the token is the second field whatever the scheme word is |
| Auth.TokenIgnoresLaterFields | lucen-backend/middleware/authMiddleware.js:16 | fields after the token are ignored |
| Auth.HeaderWithoutSpaceIsUnauthorized | lucen-backend/middleware/authMiddleware.js:18-21 | a non-empty header with no second field gives 401 and the verifier is not consulted |
| Auth.WellFormedHeaderReachesVerifier | lucen-backend/middleware/authMiddleware.js:24-37 | a `scheme token` header gives 403 or `next` exactly as the verifier decides on that token |
| SlashCommand.HandleKeyDown | lucen-frontend/src/lib/tiptap/SlashCommand.js:13-38 | dispatches exactly on Enter without Shift over a block starting with `//`; the command is trimmed and shorter than the block |
| SlashCommand.CommandOfTypedLine | lucen-frontend/src/lib/tiptap/SlashCommand.js:22-31 | `//`, white space, a command and white space dispatch exactly that command |
| SlashCommand.LaterSlashesAreText | lucen-frontend/src/lib/tiptap/SlashCommand.js:22 | a block not starting with `//` is never a command, whatever follows |
| SlashCommand.BareTriggerDispatchesEmpty | lucen-frontend/src/lib/tiptap/SlashCommand.js:22-33 | a bare `//` still dispatches, with an empty command |
| SlashCommand.CommandKeepsInnerNewlines | lucen-frontend/src/lib/tiptap/SlashCommand.js:22 | line breaks inside the block stay in the command |
| Autosave.DocEffect | lucen-frontend/src/components/MasterDocumentEditor.jsx:219-261 | after a document change the old timer is gone; a new one, due in 2000 ms, is armed exactly when the indicator read "Unsaved changes", which then reads "Saving..." |
| Autosave.Edit | lucen-frontend/src/components/MasterDocumentEditor.jsx:90-92 | a user edit leaves the indicator steady at "Saving..." with a save due 2000 ms later |
| Autosave.SilentEditAsWritten | lucen-frontend/src/components/MasterDocumentEditor.jsx:107-113 | a change that skips `onUpdate` clears any pending timer and keeps the indicator as it was |
| Autosave.SilentEdit | lucen-frontend/src/components/MasterDocumentEditor.jsx:107-113 | the corrected placeholder change leaves a steady save state, and any pending timer, untouched |
| Autosave.Tick | lucen-frontend/src/components/MasterDocumentEditor.jsx:228-256 | a timer due within the wait sends one save, and the indicator shows its outcome; otherwise nothing but the clock changes |
| Autosave.StepKeepsCoherent | lucen-frontend/src/components/MasterDocumentEditor.jsx:219-261 | as written, every event keeps "Unsaved changes" from showing between events and arms a timer only while "Saving..." shows, due within 2000 ms |
| Autosave.RunKeepsCoherent | lucen-frontend/src/components/MasterDocumentEditor.jsx:219-261 | as written, the same holds after any sequence of events |
| Autosave.StepCorrectedKeepsSteady | lucen-frontend/src/components/MasterDocumentEditor.jsx:219-261 | with the corrected placeholder change, every event also keeps "Saving..." showing only while a save is pending |
| Autosave.RunCorrectedKeepsSteady | lucen-frontend/src/components/MasterDocumentEditor.jsx:219-261 | with the corrected placeholder change, the same holds after any sequence of events |
| Autosave.StepsAgreeWithoutPendingSave | lucen-frontend/src/components/MasterDocumentEditor.jsx:107-113 | the as-written and the corrected placeholder change differ only while a save is pending |
| Autosave.RunIsMonotone | lucen-frontend/src/components/MasterDocumentEditor.jsx:228-256 | the save count and the clock never go back |
| Autosave.RunAppend | lucen-frontend/src/components/MasterDocumentEditor.jsx:219-261 | running two event sequences one after the other is running their concatenation |
| Autosave.BurstDefersSave | lucen-frontend/src/components/MasterDocumentEditor.jsx:258-259 | edits less than 2000 ms apart send no save and leave one timer pending for 2000 ms after the last edit |
| Autosave.BurstSavesOnce | lucen-frontend/src/components/MasterDocumentEditor.jsx:219-261 | such a burst followed by 2000 ms of quiet sends exactly one save, whose outcome the indicator shows |
| Autosave.SpacedEditsSaveEach | lucen-frontend/src/components/MasterDocumentEditor.jsx:228-256 | edits at least 2000 ms apart are each saved |
| Autosave.PlaceholderCancelsPendingSave | lucen-frontend/src/components/MasterDocumentEditor.jsx:107-113 | as written, a placeholder inserted after an edit cancels the save: "Saving..." shows with no save pending, no save is sent however long one waits, and "Saving..." stays shown |
| Autosave.PlaceholderKeepsPendingSave | lucen-frontend/src/components/MasterDocumentEditor.jsx:219-261 | with the corrected placeholder change, the edit before it is saved once 2000 ms pass |
| Editor.SentinelParts | lucen-frontend/src/components/MasterDocumentEditor.jsx:163 | the error path's sentinel is the placeholder without its sparkle prefix |
| Editor.BubbleInstruction | lucen-frontend/src/components/MasterDocumentEditor.jsx:16-29 | no instruction for an empty selection; otherwise the action, the fixed phrase, and the selection in quotes |
| Editor.InstructionRoundTrip | lucen-frontend/src/components/MasterDocumentEditor.jsx:23 | the selection can be read back out of the instruction |
| Editor.InstructionInjective | lucen-frontend/src/components/MasterDocumentEditor.jsx:23 | different selections give different instructions |
| Editor.CommandRange | lucen-frontend/src/components/MasterDocumentEditor.jsx:99-105 | an explicit range is used as given; otherwise the span ends at the selection's end and starts the command's length plus 2 before its start, clipped at 0, never negative and never past its end |
| Editor.LeadingSpaceLeavesResidue | lucen-frontend/src/components/MasterDocumentEditor.jsx:103-113 | as written, a `//` line with white space before the command keeps its first characters in front of the placeholder |
| Editor.CommandTarget | lucen-frontend/src/components/MasterDocumentEditor.jsx:103-105 | the corrected span: an explicit range as given, else the block holding the `//` line |
| Editor.TypedLineBecomesPlaceholder | lucen-frontend/src/components/MasterDocumentEditor.jsx:107-113 | with the corrected span, the whole typed command line becomes the placeholder and nothing else changes |
| Editor.ParagraphPerLine | lucen-frontend/src/components/MasterDocumentEditor.jsx:153 | the reply's markup wraps each of its lines in its own paragraph |
| Editor.ParagraphsOfLines | lucen-frontend/src/components/MasterDocumentEditor.jsx:153 | a reply made of given lines gives exactly those paragraphs, in order |
| Editor.JoinedWrapped | lucen-frontend/src/components/MasterDocumentEditor.jsx:153 | joining lines with `</p><p>` inside one paragraph is wrapping each line |
| Editor.ReplyReplacesFirstPlaceholder | lucen-frontend/src/components/MasterDocumentEditor.jsx:136-155 | on success only the first placeholder becomes the reply's paragraphs, and all other text is kept |
| Editor.CommandRoundTrip | lucen-frontend/src/components/MasterDocumentEditor.jsx:107-155 | inserting the placeholder over a target and resolving it is replacing the target with the reply |
| Editor.ErrorKeepsSparkle | lucen-frontend/src/components/MasterDocumentEditor.jsx:157-176 | on failure the first "Thinking..." becomes the error markup, and the sparkle and space before it remain |
| Editor.MissingPlaceholderChangesNothing | lucen-frontend/src/components/MasterDocumentEditor.jsx:141-143 | with no placeholder, the reply changes nothing |
| Editor.DocumentEditor.constructor | lucen-frontend/src/components/MasterDocumentEditor.jsx:65-76 | the editor starts empty, with "All changes saved" and nothing pending |
| Editor.DocumentEditor.UserEdit | lucen-frontend/src/components/MasterDocumentEditor.jsx:90-92 | a user change splices the document, puts the cursor after the new text and schedules a save |
| Editor.DocumentEditor.Select | lucen-frontend/src/components/MasterDocumentEditor.jsx:17-20 | moving the selection changes only the selection |
| Editor.DocumentEditor.Wait | lucen-frontend/src/components/MasterDocumentEditor.jsx:228-256 | time passes and a due save is sent |
| Editor.DocumentEditor.RunCommand | lucen-frontend/src/components/MasterDocumentEditor.jsx:95-113 | an empty command or no session changes nothing; otherwise the request carries the command, the document before the change and the selected text, the `commandRange` span (an explicit range, or the command's length plus 2 back from the selection) becomes the placeholder with the cursor after it, and the save effect re-runs without marking the document unsaved, cancelling a pending save |
| Editor.DocumentEditor.BubbleAction | lucen-frontend/src/components/MasterDocumentEditor.jsx:16-29 | an empty selection or no session changes nothing; otherwise the instruction runs with the selection as its range, the selection becomes the placeholder with the cursor after it, and a pending save is cancelled |
| Editor.DocumentEditor.KeyDown | lucen-frontend/src/lib/tiptap/SlashCommand.js:13-38 | a key is handled exactly when the slash handler dispatches; a non-empty command with a session then runs without a range, so the span counted back from the selection becomes the placeholder, and a pending save is cancelled; otherwise nothing changes |
| Editor.DocumentEditor.ResolveSuccess | lucen-frontend/src/components/MasterDocumentEditor.jsx:136-156 | the first placeholder becomes the reply's paragraphs, the cursor ends after them and a save is scheduled; with no placeholder nothing changes |
| Editor.DocumentEditor.ResolveFailure | lucen-frontend/src/components/MasterDocumentEditor.jsx:157-176 | the first "Thinking..." becomes the error markup, the cursor ends after it and a save is scheduled; with none nothing changes |
| Rag.CountIsCeiling | lucen-backend/controllers/ragController.js:11 | the chunk count is the least n with n·step at least the text length |
| Rag.ChunkText | lucen-backend/controllers/ragController.js:9-15 | there are ceil(len/step) chunks; chunk k starts at k·step, below the length, and is `text[k·step .. min(k·step+size, len))` |
| Rag.ChunkLengthBounds | lucen-backend/controllers/ragController.js:12 | every chunk is non-empty and at most `chunkSize` long |
| Rag.EmptyTextNoChunks | lucen-backend/controllers/ragController.js:11-14 | empty text gives no chunks |
| Rag.ChunksCoverText | lucen-backend/controllers/ragController.js:11-14 | every character of the text lies in some chunk, at the matching offset |
| Rag.NeighbouringChunksOverlap | lucen-backend/controllers/ragController.js:11-12 | a full chunk's last `overlap` characters begin the next chunk |
| Rag.DefaultsTerminate | lucen-backend/controllers/ragController.js:9 | the defaults 1000 and 200 meet the precondition, with a step of 800 |
| Rag.ChunkRows | lucen-backend/controllers/ragController.js:49-55 | one row per chunk, row i holding chunk i of the case |
| Rag.BuildMemoryForCase | lucen-backend/controllers/ragController.js:18-78 | 500 and no change unless the requester owns the case and it has a disclosure, when decryption gave null, or when the embedding call fails; otherwise the chunk rows are appended and the case becomes "Drafting Ready" unless that update fails, which is not fatal |
| Drafts.VersionsOf | lucen-backend/controllers/draftController.js:92-95 | exactly the versions of the case |
| Drafts.NewestFirst | lucen-backend/controllers/draftController.js:96 | the case's versions, newest first, as a permutation |
| Drafts.Newest | lucen-backend/controllers/draftController.js:38-48 | none exactly when the case has no version; otherwise a version of the case with the greatest `created_at` |
| Drafts.MarkMilestone | lucen-backend/controllers/draftController.js:50-59 | the row with that id gets the name and the milestone flag; every other field and row is unchanged |
| Drafts.CreateNamedVersion | lucen-backend/controllers/draftController.js:16-72 | 400 for a missing or empty name; 500 and no change for a non-owner or a case with no version; otherwise the newest version becomes the named milestone |
| Drafts.MilestoneIgnoresLatestFlag | lucen-backend/controllers/draftController.js:38-48 | for any versions, a version flagged latest is never the one marked while a newer version of the case exists; the one marked is at least as new as every version of the case |
| Drafts.History | lucen-backend/controllers/draftController.js:75-107 | 500 for a non-owner; otherwise the case's versions newest first, without content |
| Drafts.HistoryListsExactlyTheCase | lucen-backend/controllers/draftController.js:92-102 | every version of the case is listed, and every entry is one of them |
| Drafts.OwnedVersion | lucen-backend/controllers/draftController.js:118-123 | exactly the version with that id whose case the requester owns, at most one |
| Drafts.VersionContent | lucen-backend/controllers/draftController.js:112-134 | content only for the owner of the version's case; otherwise 500 |
| Drafts.OwnerReadsVersion | lucen-backend/controllers/draftController.js:118-129 | the owner gets the version's content |
| Drafts.OthersCannotReadVersion | lucen-backend/controllers/draftController.js:125-127 | anyone else is refused |
| Drafts.LatestRows | lucen-backend/controllers/draftController.js:166-171 | exactly the case's versions flagged latest |
| Drafts.Latest | lucen-backend/controllers/draftController.js:162-179 | with exactly one latest version, its content; `""` when there is none; 500 when there are several |
| Drafts.LatestIgnoresRequester | lucen-backend/controllers/draftController.js:162-174 | the answer does not depend on who asks |
| Drafts.AutoSaveVersion | lucen-backend/controllers/draftController.js:137-159 | the procedure's tables replace the versions on success; 500 and no change on failure |
| Drafts.RestoreVersion | lucen-backend/controllers/draftController.js:182-196 | the same for the restore procedure |
| Storage.DisclosurePathSegments | lucen-backend/controllers/iddController.js:163-165 | a client upload path splits into the firm, the case and the stamped file name |
| Storage.ManualPathSegments | lucen-backend/controllers/caseController.js:203-205 | a manual upload path splits into the firm, the case, `manual` and the stamped file name |
| Storage.ManualAndDisclosurePathsDiffer | lucen-backend/controllers/caseController.js:203-205 | a manual upload and a client upload never share a path |
| Storage.FirstEntryFor | lucen-backend/controllers/iddController.js:76-77 | the first entry for a path, or none when no entry has that path |
| Storage.UrlFor | lucen-backend/controllers/iddController.js:76-77 | the link of the first entry whose path matches, or none |
| Storage.SignDocuments | lucen-backend/controllers/caseController.js:144-158 | no documents or no answer gives none; otherwise every document with the link for its path, and nothing else |
| Idd.NonEmpty | lucen-backend/controllers/iddController.js:92 | the `or null` fallback drops exactly the empty string |
| Idd.GetIddData | lucen-backend/controllers/iddController.js:4-99 | 404 exactly when the token names no single case; an empty unsubmitted form when there is no disclosure; `isSubmitted` exactly when `submitted_at` is set |
| Idd.ClientSeesOnlySharedDocuments | lucen-backend/controllers/iddController.js:60-79 | the client sees exactly the case's shared documents, each with the first matching link |
| Idd.Upserted | lucen-backend/controllers/iddController.js:120-129 | the upsert writes the form and, when given, `submitted_at`; other columns of an existing row are kept |
| Idd.SaveIddDraft | lucen-backend/controllers/iddController.js:101-140 | 400 and no change for a bad token; otherwise only the form of the case's disclosure changes |
| Idd.DraftKeepsSubmission | lucen-backend/controllers/iddController.js:120-129 | saving a draft never sets or clears `submitted_at` |
| Idd.ClientDisclosureDocument | lucen-backend/controllers/iddController.js:177-185 | the file's row: the case, the client-disclosure type, the bucket and the `<firm>/<case>/<ts>-<name>` path, not shared |
| Idd.SubmitIdd | lucen-backend/controllers/iddController.js:142-233 | 400 and no change for a bad token or failed file; otherwise the file row, then the submitted form, then "IDD Submitted", each later failure leaving the earlier writes |
| Idd.SubmittedFormReadsBack | lucen-backend/controllers/iddController.js:193-202 | a submitted form reads back submitted, with the data sent |
| Idd.ClientVerdict | lucen-backend/controllers/iddController.js:239-241 | accepts exactly "approved" and "changes_requested" |
| Idd.StatusAfterReview | lucen-backend/controllers/iddController.js:269-288 | approval leads to "Client Approved", a change request to "Client Changes Requested" |
| Idd.Reviewed | lucen-backend/controllers/iddController.js:255-261 | the document gets the verdict, and the comments when sent; nothing else changes |
| Idd.SubmitClientReview | lucen-backend/controllers/iddController.js:235-296 | 400 for a bad verdict, 500 for a bad token or a document outside the case, all without change; otherwise the review is stored and the case takes the matching status |
| Cases.NewCase | lucen-backend/controllers/caseController.js:18-31 | the new case belongs to the requester, carries the token and has the default status "Awaiting Client IDD" |
| Cases.CreateNewCase | lucen-backend/controllers/caseController.js:6-46 | 400 and no insert for a missing or empty name or email; otherwise 201 and the new case |
| Cases.FreshTokenNamesNewCase | lucen-backend/controllers/caseController.js:18 | a fresh token opens exactly the new case |
| Cases.GetAllCases | lucen-backend/controllers/caseController.js:48-71 | exactly the requester's cases |
| Cases.CreatedCaseIsListed | lucen-backend/controllers/caseController.js:54-57 | a new case is listed for its firm only, beside the earlier ones |
| Cases.GetCaseDetails | lucen-backend/controllers/caseController.js:73-178 | 404 exactly for a case the requester does not own; otherwise the case, its disclosure decrypted, all its analyses, and its documents each with the link of the first matching entry, exactly those, and none when the store gives no answer |
| Cases.OthersSeeNoDetails | lucen-backend/controllers/caseController.js:79-91 | another firm's case reads like a case that does not exist |
| Cases.ManualDocument | lucen-backend/controllers/caseController.js:216-225 | the row of a manual upload: manual prior art under the case's `manual` folder, not shared |
| Cases.UploadManualPriorArt | lucen-backend/controllers/caseController.js:180-239 | 400 without a file; 500 and no row for a non-owner or a failed store; otherwise 201 and the row |
| Cases.Reopened | lucen-backend/controllers/caseController.js:274-282 | the comments are stored and `submitted_at` cleared; the form data is kept |
| Cases.RequestChanges | lucen-backend/controllers/caseController.js:241-298 | 400 for empty comments, 500 for a non-owner or a failed status update, no change; otherwise "Awaiting Client IDD", then the disclosure reopened, or 500 after the status change when there is no disclosure or its update fails |
| Cases.ReopenedFormReachesClient | lucen-backend/controllers/caseController.js:273-282 | after the request, the client link shows the form open, with the comments and the earlier answers |
| Documents.Shared | lucen-backend/controllers/documentController.js:21-26 | the document is shared and pending review; nothing else of it changes |
| Documents.ShareDocument | lucen-backend/controllers/documentController.js:4-48 | 500 and no change unless the requester owns the document's case; otherwise shared and the case "Awaiting Client Approval", or 500 with the document still shared when the case update fails |
| Documents.SharingShowsDocumentToClient | lucen-backend/controllers/documentController.js:21-26 | after sharing, the client link shows the document, and still shows those shared before |
| PriorArt.AnalysisRow | lucen-backend/controllers/analysisController.js:73-84 | the stored row holds the case, the prior-art document and no verdict |
| PriorArt.RowKeepsReply | lucen-backend/controllers/analysisController.js:73-84 | the row keeps each field of the answer under its column |
| PriorArt.RowOfReply | lucen-backend/controllers/analysisController.js:73-84 | a row without a verdict is the row of its own answer |
| PriorArt.AnalyzePriorArt | lucen-backend/controllers/analysisController.js:9-100 | 400 without a document; 500 and no row for a non-owner, a missing disclosure or an unparsable answer; a failed save still replies 200, with no analysis |
| PriorArt.ParseVerdict | lucen-backend/controllers/analysisController.js:107-109 | accepts exactly "relevant" and "dismissed" |
| PriorArt.VerdictRoundTrip | lucen-backend/controllers/analysisController.js:123-125 | a stored verdict reads back as itself |
| PriorArt.UpdateAnalysisStatus | lucen-backend/controllers/analysisController.js:102-139 | 400 for another status, 500 without ownership, no change; otherwise only that analysis's verdict changes |
| PriorArt.VerdictKeepsAnswer | lucen-backend/controllers/analysisController.js:123-125 | recording a verdict keeps the analysis's answer and document |

## Left out

- The AI model, the embedding service and the prior-art search are parameters: the parsed answer (`reply`), the embedding function (`embed`), and the reply text or error message given to `ResolveSuccess` and `ResolveFailure`. The prompts are not modelled.
- `decryptData` is a parameter of `GetCaseDetails`. For `BuildMemoryForCase`, the text assembled from the decrypted disclosure comes in as `fullText`, none when decryption gave null. AES via crypto-js is a foreign library, so the encryption round trip is not modelled.
- Storage uploads and signed-link issuance are outside the model. The store's answer is the `urls` parameter, and a failed upload is a fault parameter. The one-hour link lifetime is not modelled.
- `Date.now()` is the `now` parameter. `uuidv4()` and database-generated ids are parameters, required fresh where they key a table.
- Error texts produced by the database itself are the single constant `DatabaseError`. The `message` texts the handlers write are modelled exactly. Two kinds of extra field are not: the `error` field that carries the caught exception's message beside a 500's `message`, and the `message` that wraps a returned row on success. A success reply's body is the row alone, and a failure's is its `message` alone.
- Drafts.CreateNamedVersion: the success reply is `{ message: "Milestone created successfully.", data: milestone }`; the model's body is the milestone alone, without the `message`.
- PriorArt.AnalyzePriorArt: the 500 also carries `error` with the exception's message (a failed ownership read, or the model's answer that is not JSON); the model gives the `message` only.
- Cases.RequestChanges: the success reply is `{ message: "Changes requested successfully.", updatedCase: ... }` and the 500 also carries `error`; the model gives the reopened disclosure, or the `message` only.
- Cases.CreateNewCase: the 500 reply's `error` field is not modelled.
- Cases.UploadManualPriorArt: the 500 reply's `error` field is not modelled.
- Cases.GetAllCases: the 500 reply's `error` field is not modelled, and neither is the failed read that produces it.
- Database faults are modelled where they leave a partial state or change the reply's shape: the status updates in `buildMemoryForCase`, `submitIdd`, `submitClientReview`, `shareDocument` and `requestChanges`, the disclosure update in `requestChanges`, the upsert in `submitIdd`, and the save in `analyzePriorArt`. The other handlers each write once; a fault there replies with an error and changes nothing, and is not modelled. A failed read of the analyses in `getCaseDetails`, which then come back empty, is not modelled either.
- Drafts.AutoSaveVersion: the `handle_new_draft_version` procedure's SQL is not in the repository. Its result table is a parameter, and nothing is asserted about single `is_latest` rows or milestone freezing.
- Drafts.RestoreVersion: the same holds for the `restore_draft_version` procedure.
- The retrieval in `commandController.js`, the search handler, the image handler and the `old*` files are not part of this model.
- `getCaseDetails`' `latest_search` field is not modelled.
- Idd.GetIddData: the shared documents are a set, so their `created_at` order is not modelled.
- Cases.GetCaseDetails: the documents and analyses are sets, not ordered lists.
- The editor's document is its plain text, as one string. The ProseMirror offset of `+1` at resolution, the HTML produced by `getHTML()`, and the parsing of inserted markup into nodes are not modelled.
- Editor.DocumentEditor.KeyDown: the block holding the cursor is given as a span, because the model has no node tree. The `DocumentEditor` class runs the program as written; the corrected span (`CommandTarget`) and the corrected placeholder change (`SilentEdit`, `RunCorrected`) are separate members that the class does not use.
- Autosave: React's scheduling is discrete events on a logical clock. The save request's latency, and edits made while it is in flight, are not modelled. Neither is the timer's `!session` early return (a save with no session is simply not sent).
- Lengths and offsets count characters, not the UTF-16 code units that JavaScript's `length`, `substring` and ProseMirror positions count. This matters for `CommandRange` and `ChunkText` only on text outside the Basic Multilingual Plane.
- Drafts.CreateNamedVersion: versions with equal `created_at` are ordered by the model in one fixed way, while `.limit(1)` after `ORDER BY created_at DESC` may return either; `Newest` promises only a version with the greatest `created_at`. The same holds for the order of ties in `History`.
- Concurrent AI commands in flight at once are not modelled beyond the first-placeholder rule.
- The routes, `index.js` and the Supabase client modules are wiring and are not modelled. That includes the editor posting to a draft route that is not mounted.
- Rag.BuildMemoryForCase: the chunk insert's own error is ignored by the handler, so the model always appends the rows. The `review_status = 'relevant'` filter on the analyses is part of building `fullText`, which is a parameter.

## Findings

| source | as written | input that shows it | evidently intended | confidence | as-written member | corrected member |
|---|---|---|---|---|---|---|
| lucen-frontend/src/components/MasterDocumentEditor.jsx:103-105 | a slash command's span starts the command's length plus 2 before the cursor, but the command was trimmed, so white space between `//` and the command is not counted | the block `// x` with the cursor at its end: the span covers ` x` and one `/`, so `/` is left in front of the placeholder | the whole `//` line is replaced by the placeholder | high, not executed | Editor.LeadingSpaceLeavesResidue | Editor.TypedLineBecomesPlaceholder |
| lucen-frontend/src/components/MasterDocumentEditor.jsx:219-261 | the placeholder insert skips `onUpdate` but still changes the document, so the auto-save effect re-runs; its cleanup clears the pending timer, and with "Saving..." showing it arms no new one | an edit, then a command within 2000 ms: no save is sent until the reply changes the document again, and "Saving..." shows meanwhile | the placeholder leaves the pending save of the earlier edit in place | medium, not executed | Autosave.PlaceholderCancelsPendingSave | Autosave.PlaceholderKeepsPendingSave |
