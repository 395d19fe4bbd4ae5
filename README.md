# ai-chat-app: attachment pipeline and chat state, in Dafny

ai-chat-app is a browser chat client for a hosted language model. A user
types a prompt and may attach images, text files, PDF or DOCX documents.
The core modelled here is the path an attachment takes:

- the upload policy (MIME allow-lists, 5 MiB per file, 15 MiB per request);
- the composer's intake loop, which accepts or skips each incoming file and
  builds the skip alert;
- the server's `filesToParts`, which turns each file into a model content
  part, an "unsupported" entry or a note;
- the chat route, which reads the multipart form, lays the user content out
  (prompt or default instruction, file parts, warning, notes) and rejects an
  empty request;
- the two chat screens, which append the user and assistant messages and
  stream the answer into the assistant message chunk by chunk.

The small state containers around this path are modelled too:

- the chat message store and the profile store;
- the route gate and the mocked login;
- the tag-list editor;
- the speech-recognition hook.

Most source files are one Dafny module each. The exceptions:

- `Badges` models both copies of the tag-list editor,
  src/components/ui/molecules/BadgesInput.tsx and
  src/components/molecules/BadgesInput.tsx. Their logic is the same; they
  differ only in imports and markup. The rows below cite the first copy.
- `ChatStream` holds the reply handling that both chat screens share.
  `SimpleChat` and `AttachmentChat` are the two screens.
- `Text` and `Wrappers` model no source file. They hold the string built-ins
  the code calls (`trim`, `toLowerCase`, `split`, `startsWith`) and the
  `Option` and `Result` types.

Code that computes a value is a function with lemmas about it. Code that changes state step by step is a
method or a class:

- `ChatStore.ChatLog`, `ProfileStore.ProfileState`, `SimpleChat.ChatPanel`,
  `AttachmentChat.AttachmentPanel`, `Composer.ComposerForm`,
  `Badges.TagInput` and `Speech.Recognizer` hold the fields the source
  updates.
- The source's loops are methods with loop invariants:
  - `ComposerFiles.Partition`;
  - `Parts.FilesToParts`;
  - `ChatRoute.ComposeParts`;
  - `ChatStream.Consume`;
  - `Speech.FoldResults`;
  - the form-building loop of `AttachmentChat.AttachmentPanel.Send`.
- Each method is proved equal to a specification function. The properties
  are proved about that function.

Some things the code calls cannot be seen, so they become parameters:

- `file.text()` is a `decode` function of the file's bytes.
- `pdfParse` is a `pdfParse` function giving a parse result or an exception.
- `crypto.randomUUID` and `URL.createObjectURL` are sequences of ids and
  URLs.
- `fetch` with its response stream is a `Reply`: it throws, fails, or yields
  a finite list of decoded chunks, possibly followed by a failing read.

Behaviour of the code worth knowing:

- DOCX files pass the upload policy, but `filesToParts` has no DOCX branch.
  They are reported as unsupported, and `docxToText` is never called on
  this path (`ChatRoute.DocxOnlyRequestRejected`).
- A PDF parser exception is not recovered per file. It aborts the whole
  request (`Parts.CollectAllFailsIff`, `Parts.FailureSticks`).
- The route answers "Missing input" when there is no prompt and no file
  produced a part. A request whose files were all unsupported is therefore
  also rejected (`ChatRoute.ComposeMissingIff`).
- Neither chat screen catches errors after `fetch`. A throwing `fetch` or
  a failing read leaves `isSending` set and the partial text in place
  (`ChatStream.ReplyOutcomes`).
- The composer's `handleSubmit` does not check `isSending`. Enter submits
  while the send button is disabled (`Composer.EnterIgnoresSending`).

## Model

| member | source | states |
|---|---|---|
| Uploads.SupportedLayout | src/config/uploads.ts:23-28 | the allow-list is the image, text-like, PDF and DOCX lists spread in that order, 12 entries |
| Uploads.IsSupported | src/config/uploads.ts:23-28 | membership in the allow-list; `SupportedIsUnion` and `UnknownTypesUnsupported` state what it admits |
| Uploads.SupportedIsUnion | src/config/uploads.ts:1-28 | a type is supported exactly when it is in one of the four lists |
| Uploads.ListsDisjoint | src/config/uploads.ts:1-21 | no type is in two of the lists, so at most one branch of `filesToParts` applies |
| Uploads.LimitValues | src/config/uploads.ts:38-39 | 5 MiB per file and 15 MiB per request in bytes; three full files fill a request |
| Uploads.UnknownTypesUnsupported | src/config/uploads.ts:23-28 | the empty type and "application/octet-stream" are not allowed |
| Uploads.DocxListHoldsExtension | src/config/uploads.ts:16-19 | the DOCX list holds the extension ".docx", which has no "/" unlike every other allowed entry |
| Files.GetFileExtension | src/lib/files.ts:1-4 | a name without "." has no extension, and an extension never contains "." or an upper-case letter |
| Files.ExtensionAfterLastDot | src/lib/files.ts:2-3 | otherwise the extension is the lower-cased text after the last "." |
| Files.ExtensionOfTrailingDot | src/lib/files.ts:2-3 | a trailing "." gives the empty extension |
| Files.ExtensionOfDotFile | src/lib/files.ts:2-3 | a leading "." is not special: a name "." followed by dot-free text has that text, lower-cased, as its extension |
| Pdf.ExtractPdfText | src/lib/server/pdf.ts:4-20 | the result is the trimmed text cut to the limit; `truncated` holds exactly when the trimmed text is longer; the text is a prefix of the trimmed text |
| Pdf.ExtractedEmptyIffBlank | src/lib/server/pdf.ts:15-19 | with a positive limit the text is empty exactly when the parser returned only whitespace or nothing |
| Pdf.ZeroLimitEmptiesText | src/lib/server/pdf.ts:15-17 | a limit of 0 turns any non-blank document into an empty, truncated text |
| Docx.DocxToText | src/lib/server/docx.ts:7-27 | never fails; after the header come the trimmed text, "(Empty document)" for blank text, or the error message |
| Docx.DocxHeaderShared | src/lib/server/docx.ts:17-25 | success and failure both begin with the same header naming the file |
| Parts.Classify | src/lib/server/parts.ts:9-19 | each type falls into exactly one of image, text-like, PDF or other, matching the three list predicates |
| Parts.EffectiveType | src/lib/server/parts.ts:31 | the type used is never empty; a missing type reads "application/octet-stream" |
| Parts.FilesToParts | src/lib/server/parts.ts:21-70 | the loop's three lists equal the batch conversion `CollectAll`, or its failure when the PDF parser throws |
| Parts.FailureSticks | src/lib/server/parts.ts:48-49 | once the parser has thrown, later files change nothing |
| Parts.ImageBecomesFilePart | src/lib/server/parts.ts:33-37 | an image becomes one file part with all its bytes and its type |
| Parts.TextlikeBecomesTextPart | src/lib/server/parts.ts:39-46 | a text-like file becomes one text part: a header with name and type, then the decoded text |
| Parts.BlankPdfGivesOnlyNote | src/lib/server/parts.ts:48-53 | a PDF without extractable text gives no part and one note naming it |
| Parts.ShortPdfIsWhole | src/lib/server/parts.ts:48-63 | a PDF whose trimmed text is non-blank and at most 20000 characters gives one part with the whole trimmed text and no note |
| Parts.LongPdfIsTruncated | src/lib/server/parts.ts:54-62 | a PDF over 20000 characters gives one part with the first 20000 and one truncation note |
| Parts.OtherTypesUnsupported | src/lib/server/parts.ts:66 | DOCX, unknown and missing types land in `unsupported` with the effective type |
| Parts.Convert | src/lib/server/parts.ts:30-67 | the outcome of one file; `ConvertBounds` and the per-type lemmas below state it |
| Parts.CollectAll | src/lib/server/parts.ts:21-70 | the batch conversion; `CollectAllBounds`, `CollectAllFailsIff`, `FailureSticks`, `ImagesInOrder` and `UnclassifiedGiveNoParts` state it |
| Parts.ConvertBounds | src/lib/server/parts.ts:30-67 | one file adds at most one part or unsupported entry, never both, and at most one note |
| Parts.CollectAllBounds | src/lib/server/parts.ts:30-67 | a batch gives no more parts plus unsupported entries than files, no more notes than files, and no unsupported entry with an empty type |
| Parts.CollectAllFailsIff | src/lib/server/parts.ts:48-49 | the batch fails exactly when the parser throws on some PDF in it |
| Parts.ImagesInOrder | src/lib/server/parts.ts:30-37 | a batch of images gives one file part per image, position by position |
| Parts.UnclassifiedGiveNoParts | src/lib/server/parts.ts:66 | a batch of unclassified files gives no parts or notes, one unsupported entry per file in order |
| ComposerFiles.Check | src/hooks/useComposerFiles.ts:27-56 | the verdict is the first failing rule, in the order type, file size, running total; a file is accepted exactly when it passes all three |
| ComposerFiles.PendingTotalAppend | src/hooks/useComposerFiles.ts:25 | the size of pending files adds up over concatenation |
| ComposerFiles.Step | src/hooks/useComposerFiles.ts:28-65 | one pass of the intake loop; `StepPartitions` states that it files the file under exactly one list |
| ComposerFiles.StepPartitions | src/hooks/useComposerFiles.ts:28-65 | one step keeps accepted and skipped files apart, each list in batch order, names and reasons aligned |
| ComposerFiles.Run | src/hooks/useComposerFiles.ts:25-66 | the intake fold; the `Run` lemmas below state what it accepts, skips and totals |
| ComposerFiles.Partition | src/hooks/useComposerFiles.ts:27-66 | the loop's accepted, skipped and reasons lists equal the intake fold `Run` |
| ComposerFiles.RunPartitions | src/hooks/useComposerFiles.ts:27-66 | every incoming file is accepted or skipped, never both, each list in batch order, names and reasons aligned |
| ComposerFiles.RunAcceptedValid | src/hooks/useComposerFiles.ts:56-65 | each accepted entry is the batch file with its id, of a supported type and at most 5 MiB, with a preview URL exactly when it is an image |
| ComposerFiles.RunSkippedReasons | src/hooks/useComposerFiles.ts:30-54 | each skipped name is the batch file's name, and its reason is the text of the first rule it failed |
| ComposerFiles.RunTotal | src/hooks/useComposerFiles.ts:25 | the running total is the pending size plus the sizes of the accepted files |
| ComposerFiles.RunKeepsTotalBound | src/hooks/useComposerFiles.ts:44-56 | a running total that starts within 15 MiB never decreases and stays within 15 MiB |
| ComposerFiles.RunAcceptsAllThatFit | src/hooks/useComposerFiles.ts:44-56 | when every file is allowed and the batch fits beside the pending files, nothing is skipped |
| ComposerFiles.ShownReasons | src/hooks/useComposerFiles.ts:72 | the alert shows at most the first three reasons, all of them when there are three or fewer |
| ComposerFiles.SkipAlert | src/hooks/useComposerFiles.ts:68-74 | an alert is raised exactly when some file was skipped |
| ComposerFiles.ProcessFiles | src/hooks/useComposerFiles.ts:17-79 | an empty batch changes nothing; otherwise the accepted files are appended after the pending ones and the alert is the skip alert of the fold |
| ComposerFiles.ProcessFilesKeepsBudget | src/hooks/useComposerFiles.ts:44-76 | intake keeps the pending files in front, unchanged, and the pending total within 15 MiB |
| Composer.SubmitOutcome | src/components/chat/Composer.tsx:134-143 | nothing is submitted exactly when the draft is blank and no file is pending; otherwise the trimmed draft is |
| Composer.SubmitDisabled | src/components/chat/Composer.tsx:212-214 | the button is disabled exactly while sending, or with a blank draft and no file |
| Composer.ButtonMatchesGuard | src/components/chat/Composer.tsx:212-214 | when nothing is in flight, the button is enabled exactly when submitting would send something |
| Composer.EnterIgnoresSending | src/components/chat/Composer.tsx:145-150 | while sending, the button is disabled but Enter still submits a non-blank draft |
| Composer.ComposerForm.constructor | src/components/chat/Composer.tsx:32 | an empty draft and the pending files as given |
| Composer.ComposerForm.ProcessFiles | src/components/chat/Composer.tsx:44-106 | the composer's own copy of the intake appends the accepted files and returns the skip alert |
| Composer.ComposerForm.HandleSubmit | src/components/chat/Composer.tsx:134-143 | submits `SubmitOutcome` and clears the draft exactly when something was submitted |
| Composer.ComposerForm.OnKeyDown | src/components/chat/Composer.tsx:145-150 | Enter without Shift submits as `HandleSubmit` does; any other key changes nothing |
| ChatRoute.PromptOf | src/app/api/chat/route.ts:10 | a missing prompt field reads as "" |
| ChatRoute.FilesOf | src/app/api/chat/route.ts:11-13 | never more files than form entries; `FilesOfKeepsFiles` states which |
| ChatRoute.FilesOfKeepsFiles | src/app/api/chat/route.ts:11-13 | the filter keeps exactly the file entries, and is empty exactly when every entry is a string |
| ChatRoute.NoteParts | src/app/api/chat/route.ts:45-47 | one "Note: " text part per note, in order |
| ChatRoute.Respond | src/app/api/chat/route.ts:8-55 | a successful request hands exactly one user message to the model |
| ChatRoute.Post | src/app/api/chat/route.ts:8-55 | the handler answers `Respond`: the parser's exception, 400 "Missing input", or the composed user message |
| ChatRoute.Compose | src/app/api/chat/route.ts:17-47 | the user content or "Missing input"; `ComposeMissingIff` and `ComposeLayout` state which and what |
| ChatRoute.ComposeParts | src/app/api/chat/route.ts:17-47 | the push, early return, unshift, warning and note loop build `Compose` |
| ChatRoute.ComposeMissingIff | src/app/api/chat/route.ts:17-26 | "Missing input" is answered exactly when the prompt is empty and no file gave a part |
| ChatRoute.ComposeLayout | src/app/api/chat/route.ts:17-47 | the content is the prompt or the default instruction, then the file parts in order, then the warning parts, then the note parts |
| ChatRoute.WarningParts | src/app/api/chat/route.ts:35-43 | one warning part exactly when a file was unsupported, naming them |
| ChatRoute.WarningOfOne | src/app/api/chat/route.ts:35-43 | one unsupported file gives the warning with its name and type, "unknown" for an empty type |
| ChatRoute.WarningNeverSaysUnknown | src/app/api/chat/route.ts:36-38 | after conversion no unsupported entry has an empty type, so "unknown" never shows |
| ChatRoute.DocxOnlyRequestRejected | src/app/api/chat/route.ts:21-26 | a request with no prompt whose files are all unclassified, DOCX included, gets 400 "Missing input" |
| ChatRoute.PromptOnly | src/app/api/chat/route.ts:17-19 | a prompt with no files is sent as a single text part |
| ChatRoute.WhitespacePromptIsSent | src/app/api/chat/route.ts:18 | a whitespace-only prompt is truthy, so it is sent as is and no default instruction is added |
| ChatStore.Overlay | src/store/chat.ts:23 | fields present in the patch win; fields absent from it are kept |
| ChatStore.UpdateById | src/store/chat.ts:20-25 | same length; messages with another id are unchanged; messages with the id get the patch |
| ChatStore.IdsAppend | src/store/chat.ts:18-19 | appending a message appends its id |
| ChatStore.OverlayEmpty | src/store/chat.ts:23 | an empty patch changes nothing |
| ChatStore.OverlayIdempotent | src/store/chat.ts:23 | applying a patch twice is applying it once |
| ChatStore.UpdateUnknownId | src/store/chat.ts:20-25 | an id no message has leaves the log unchanged |
| ChatStore.UpdateIdempotent | src/store/chat.ts:20-25 | updating twice with the same id-keeping patch is updating once |
| ChatStore.LastContentWins | src/store/chat.ts:20-25 | of two content updates of a message only the later shows |
| ChatStore.UpdateKeepsIds | src/store/chat.ts:20-25 | an update without an id keeps the ids and their order |
| ChatStore.UpdateLast | src/store/chat.ts:18-25 | updating a just-appended message with a fresh id changes that message alone |
| ChatStore.ChatLog.constructor | src/store/chat.ts:17 | the log starts empty |
| ChatStore.ChatLog.AddMessage | src/store/chat.ts:18-19 | appends the message and keeps the others |
| ChatStore.ChatLog.UpdateMessage | src/store/chat.ts:20-25 | the log becomes `UpdateById` of the old log |
| ChatStore.ChatLog.Reset | src/store/chat.ts:26 | the log becomes empty |
| ChatStream.Consume | src/components/chat/Chat.tsx:52-60 | after chunk k the log is the old log with the assistant message's content set to chunks 0..k joined, each such content a prefix of the final text; at the end the accumulator is all chunks joined and the log holds it, untouched when there were none |
| ChatStream.AfterReply | src/components/chat/Chat.tsx:45-61 | the log after a reply; `ReplyOutcomes`, `ReplyTouchesOnlyAssistant` and `ReplyAfterPair` state it |
| ChatStream.HandleReply | src/components/chat/Chat.tsx:45-61 | an error text on a failed response, the streamed text otherwise; `isSending` stays set only when `fetch` or a read throws |
| ChatStream.ReplyTouchesOnlyAssistant | src/components/chat/Chat.tsx:45-61 | with a fresh assistant id, handling the reply changes only the assistant message, which ends with the final content |
| ChatStream.ReplyAfterPair | src/components/chat/Chat.tsx:32-61 | appending the pair and handling the reply gives the log plus the user message and the finished assistant message |
| ChatStream.ExchangeShape | src/components/chat/Chat.tsx:32-33 | the old log is kept, then the user message, then the assistant message |
| ChatStream.ReplyOutcomes | src/components/chat/Chat.tsx:45-61 | a failed response leaves the error text and clears the flag; a complete stream leaves the whole text and clears it; a throw leaves it set |
| SimpleChat.ChatPanel.constructor | src/components/chat/Chat.tsx:9-10 | empty draft, not sending |
| ChatStream.PostExchange | src/components/chat/Chat.tsx:31-61 | appending the pair and handling the reply leaves the log as the exchange and `isSending` as the reply decides |
| SimpleChat.ChatPanel.Send | src/components/chat/Chat.tsx:17-62 | a blank draft changes nothing; otherwise the trimmed draft is posted, the draft cleared, and the log becomes the exchange |
| SimpleChat.ChatPanel.OnSubmit | src/components/chat/Chat.tsx:64-69 | while sending nothing happens; otherwise `Send` |
| AttachmentChat.FindById | src/components/organisms/chat/Chat.tsx:22 | none exactly when no file has the id; otherwise the first file with it |
| AttachmentChat.Without | src/components/organisms/chat/Chat.tsx:24 | never more files than before |
| AttachmentChat.WithoutMembers | src/components/organisms/chat/Chat.tsx:24 | keeps exactly the files with another id |
| AttachmentChat.FileEntries | src/components/organisms/chat/Chat.tsx:46 | one "files" entry per pending file, in order |
| AttachmentChat.UserContent | src/components/organisms/chat/Chat.tsx:32 | never empty; the prompt itself when non-empty |
| AttachmentChat.AttachmentPanel.constructor | src/components/organisms/chat/Chat.tsx:13-14 | not sending, no pending files |
| AttachmentChat.AttachmentPanel.RemoveFile | src/components/organisms/chat/Chat.tsx:20-26 | drops the files with the id and revokes the first match's URL if it has one |
| AttachmentChat.AttachmentPanel.Send | src/components/organisms/chat/Chat.tsx:28-72 | the form holds the prompt and one entry per pending file; pending files are cleared; the log becomes the exchange |
| AttachmentChat.WithoutKeepsOrder | src/components/organisms/chat/Chat.tsx:24 | two kept files stay in their relative order |
| AttachmentChat.WithoutAbsent | src/components/organisms/chat/Chat.tsx:24 | removing an absent id changes nothing |
| AttachmentChat.WithoutIdempotent | src/components/organisms/chat/Chat.tsx:24 | removing the same id twice is removing it once |
| AttachmentChat.RevokedUrlBelongsToTarget | src/components/organisms/chat/Chat.tsx:22-23 | a revoked URL belongs to a file with the id; with no such file nothing is revoked |
| AttachmentChat.FormRoundTrip | src/components/organisms/chat/Chat.tsx:44-46 | the route reads back exactly the pending files in order and the prompt as typed |
| AttachmentChat.AttachmentOnlySend | src/components/organisms/chat/Chat.tsx:32 | without a prompt the log shows "(attachment)" but the route leads with the default instruction |
| ProfileStore.Merge | src/store/profile.ts:23 | every field present in the patch wins; every other field is kept |
| ProfileStore.MergeEmpty | src/store/profile.ts:23 | an empty patch changes nothing |
| ProfileStore.MergeIdempotent | src/store/profile.ts:23 | the same patch twice is the patch once |
| ProfileStore.MergeThen | src/store/profile.ts:23 | two patches in a row act as the later spread over the earlier |
| ProfileStore.MergeFullPatch | src/store/profile.ts:23 | a patch naming every field replaces any profile |
| ProfileStore.DefaultProfileShape | src/store/profile.ts:13-17 | the default profile has a null avatar and no bio or skills |
| ProfileStore.ProfileState.constructor | src/store/profile.ts:22 | starts at the default profile |
| ProfileStore.ProfileState.SetProfile | src/store/profile.ts:23 | the profile becomes the old one merged with the patch |
| ProfileStore.ProfileState.Reset | src/store/profile.ts:24 | the profile becomes the default |
| Middleware.GatedPrefixesDistinct | src/middleware.ts:10-17 | "/login" and the gated prefixes are not prefixes of each other |
| Middleware.Decide | src/middleware.ts:4-24 | redirects to "/login" exactly when logged out on a gated path, to "/chat" exactly when logged in on "/login"; no other redirect |
| Middleware.NoRedirectLoop | src/middleware.ts:8-21 | following a redirect with the same cookie is let through |
| Middleware.IsLoggedIn | src/middleware.ts:5 | the login test; `CookieMustBeExactlyTrue` states it |
| Middleware.CookieMustBeExactlyTrue | src/middleware.ts:5 | only the cookie value "true" logs in |
| Middleware.MatchedPathOutcomes | src/middleware.ts:26-28 | the outcome on each matched path in both login states; "/" always passes |
| Middleware.PrefixGating | src/middleware.ts:10 | the tests are prefix tests: "/chatroom" and "/profile/edit" are gated, "/loginx" redirects when logged in |
| Login.Post | src/app/api/login/route.ts:9-23 | logs in exactly on the mocked email and password, with the auth cookie; otherwise 401 "Invalid credentials" |
| Login.AuthCookie | src/app/api/login/route.ts:11-17 | the cookie a login sets; `CookieAttributes` states its attributes |
| Login.CookieAttributes | src/app/api/login/route.ts:11-17 | the cookie is auth=true, httpOnly, same-site lax, one week, path "/", secure exactly in production |
| Login.RejectionsAlike | src/app/api/login/route.ts:20-23 | all rejections are identical, whichever field was wrong |
| Login.LoginOpensChat | src/app/api/login/route.ts:11 | the cookie set by a login opens "/chat" and sends "/login" to "/chat" at the gate |
| Badges.Norm | src/components/ui/molecules/BadgesInput.tsx:68-69 | the trimmed text, lower-cased when folding; `NormBlankIff` states when it is empty and how the two modes relate |
| Badges.Exists | src/components/ui/molecules/BadgesInput.tsx:70 | some tag has the same normal form; `ExistingNotAdded`, `CaseFoldedDuplicate` and `CaseKeptDistinct` state its effect on adding |
| Badges.NormBlankIff | src/components/ui/molecules/BadgesInput.tsx:68-69 | the normal form is empty exactly when the text is blank, in both modes; the folded form is the lower-cased unfolded one |
| Badges.Cleaned | src/components/ui/molecules/BadgesInput.tsx:73-76 | no more cleaned items than given, none of them empty; `CleanedAreNew`, `CleanedFromItems`, `CleanedKeepsNew` and `CleanedAppend` state which items they are |
| Badges.CleanedAreNew | src/components/ui/molecules/BadgesInput.tsx:73-76 | no cleaned item is already a tag |
| Badges.SliceTo | src/components/ui/molecules/BadgesInput.tsx:79-81 | a prefix of the list; a negative end counts from the back |
| Badges.RemoveAt | src/components/ui/molecules/BadgesInput.tsx:89-90 | one tag fewer for an index in range, the same list otherwise |
| Badges.TrimmedNonEmpty | src/components/ui/molecules/BadgesInput.tsx:116-117 | no more pieces than given, none empty; `TrimmedNonEmptyKeeps` and `TrimmedNonEmptyAppend` state which pieces they are |
| Badges.TrimmedNonEmptyAppend | src/components/ui/molecules/BadgesInput.tsx:116-117 | trimming two runs of pieces gives the two results joined |
| Badges.TrimmedNonEmptyKeeps | src/components/ui/molecules/BadgesInput.tsx:116-117 | every piece that is not blank appears, trimmed |
| Badges.PastePieces | src/components/ui/molecules/BadgesInput.tsx:114-117 | the pieces of a paste; `PastePiecesClean`, `PasteWithoutSeparator`, `PasteTakeOverNeedsSeparator` and `PasteTwoTags` state what they are |
| Text.SplitRuns | src/components/ui/molecules/BadgesInput.tsx:115 | at least one piece, and no piece holds a separator |
| Text.SplitRunsContent | src/components/ui/molecules/BadgesInput.tsx:115 | the pieces joined are the text with every separator removed, and there is one piece more than there are maximal runs of separators |
| Badges.PasteWithoutSeparator | src/components/ui/molecules/BadgesInput.tsx:114-117 | a text without separators gives its trimmed self as the only piece, or no piece when it is blank |
| Badges.PasteTakeOverNeedsSeparator | src/components/ui/molecules/BadgesInput.tsx:114-118 | more than one piece, the condition for taking a paste over, needs at least one run of separators in the text |
| Badges.PasteTwoTags | src/components/ui/molecules/BadgesInput.tsx:114-117 | "a, b" gives the pieces "a" and "b" |
| Badges.AddMany | src/components/ui/molecules/BadgesInput.tsx:72-85 | the list handed to `onChange`, or none; `AddManyNoneIff` and `AddManyShape` state when there is one and what it holds |
| Badges.AddManyNoneIff | src/components/ui/molecules/BadgesInput.tsx:78 | `onChange` is skipped exactly when no item survives cleaning |
| Badges.AddManyShape | src/components/ui/molecules/BadgesInput.tsx:79-81 | the new list is the old tags followed by the cleaned items: all of them without a cap, the first `maxBadges` of them under a positive cap, and always a prefix of them; the old tags stay in front when they fit the cap |
| Badges.CleanedFromItems | src/components/ui/molecules/BadgesInput.tsx:73-76 | every added tag is a trimmed item |
| Badges.ExistingNotAdded | src/components/ui/molecules/BadgesInput.tsx:70-76 | no added tag has the normal form of an existing one |
| Badges.CleanedSnoc | src/components/ui/molecules/BadgesInput.tsx:73-76 | one more item appends its trimmed text exactly when that is non-blank and not already a tag, and leaves the earlier result unchanged |
| Badges.CleanedAppend | src/components/ui/molecules/BadgesInput.tsx:73-76 | cleaning two runs of items gives the two results joined: each item is compared with the old tags only, never against the rest of the batch |
| Badges.CleanedKeepsNew | src/components/ui/molecules/BadgesInput.tsx:73-76 | every item whose trimmed text is non-blank and not already a tag is added |
| Badges.BatchDuplicatesSurvive | src/components/ui/molecules/BadgesInput.tsx:73-76 | so an item given twice in one batch is added twice |
| Badges.CleanedSingle | src/components/ui/molecules/BadgesInput.tsx:73-76 | a single item is kept trimmed exactly when it is non-blank and new |
| Badges.CaseFoldedDuplicate | src/components/ui/molecules/BadgesInput.tsx:68-76 | with case folding, an item equal to an existing tag up to trimming and case is not added |
| Badges.CaseKeptDistinct | src/components/ui/molecules/BadgesInput.tsx:68-76 | without it, a non-blank item whose trimmed text differs from every trimmed tag (for instance only in case) is added, trimmed |
| Badges.RemoveAtKeepsOthers | src/components/ui/molecules/BadgesInput.tsx:89-90 | removal drops exactly the tag at the index and keeps the others in order |
| Badges.NegativeCapDropsFromBack | src/components/ui/molecules/BadgesInput.tsx:79-81 | a cap of -1 drops the last tag of the combined list |
| Badges.ReachedMax | src/components/ui/molecules/BadgesInput.tsx:124 | the list is full; `ReachedMaxIff` states when |
| Badges.ReachedMaxIff | src/components/ui/molecules/BadgesInput.tsx:124 | the list is full only under a truthy cap; with none or 0 it never is |
| Badges.PastePiecesClean | src/components/ui/molecules/BadgesInput.tsx:114-117 | each pasted piece is non-empty, trimmed and free of separators |
| Badges.TrimmedFromPieces | src/components/ui/molecules/BadgesInput.tsx:116-117 | trimming separator-free pieces keeps them trimmed and separator-free |
| Badges.TagInput.constructor | src/components/ui/molecules/BadgesInput.tsx:45 | the tags as given, an empty draft, the options as given |
| Badges.TagInput.Add | src/components/ui/molecules/BadgesInput.tsx:72-85 | the tags become what `addMany` hands to `onChange`, or stay when nothing is handed |
| Badges.TagInput.Remove | src/components/ui/molecules/BadgesInput.tsx:89-93 | the tags become `RemoveAt` of the old tags |
| Badges.TagInput.OnKeyDown | src/components/ui/molecules/BadgesInput.tsx:95-109 | a commit key with a non-blank draft adds it and clears the draft; Backspace on an empty draft drops the last tag; otherwise nothing |
| Badges.TagInput.OnPaste | src/components/ui/molecules/BadgesInput.tsx:111-122 | a paste is taken over exactly when it splits into more than one piece, and then the pieces are added |
| Speech.TranscriptOf | src/hooks/useSpeechRecognition.ts:94-95 | the first alternative's transcript, or "" |
| Speech.FoldResults | src/hooks/useSpeechRecognition.ts:89-98 | the buffers are the final and the interim transcripts of the results from `resultIndex` on, in order |
| Speech.GatherAppend | src/hooks/useSpeechRecognition.ts:92-98 | a buffer over two runs of results is the two buffers joined |
| Speech.Gather | src/hooks/useSpeechRecognition.ts:92-98 | the buffer of one kind; its properties are stated by `FoldResults`, `GatherAppend`, `BuffersPartition` and `NoFinalNoReport` |
| Speech.Select | src/hooks/useSpeechRecognition.ts:96-97 | the results of one kind: all drawn from the batch, all of that kind |
| Speech.BuffersPartition | src/hooks/useSpeechRecognition.ts:92-98 | each buffer is the transcripts of exactly the results of its kind, in order, and the two kinds together are all visited results, each once |
| Speech.GatherIsSelected | src/hooks/useSpeechRecognition.ts:92-98 | the buffer of one kind is the transcripts of the results of that kind |
| Speech.SelectSplits | src/hooks/useSpeechRecognition.ts:96-97 | the final and the non-final results together are the batch, as a multiset |
| Speech.NoFinalNoReport | src/hooks/useSpeechRecognition.ts:105-108 | without a final result the final buffer is empty, so nothing is reported |
| Speech.Recognizer.constructor | src/hooks/useSpeechRecognition.ts:73-86 | a recogniser exists exactly when the browser has one; not listening, no interim text |
| Speech.Recognizer.OnResult | src/hooks/useSpeechRecognition.ts:88-109 | the interim buffer is published when interim results are on and it is non-empty; a non-empty final buffer is reported and clears the interim text |
| Speech.Recognizer.OnEnd | src/hooks/useSpeechRecognition.ts:111 | stops listening |
| Speech.Recognizer.OnError | src/hooks/useSpeechRecognition.ts:112 | stops listening |
| Speech.Recognizer.Start | src/hooks/useSpeechRecognition.ts:124-131 | listening is set exactly when a recogniser exists |
| Speech.Recognizer.Stop | src/hooks/useSpeechRecognition.ts:133-142 | with a recogniser, listening and interim text are reset even when its stop throws; without one nothing changes |
| Speech.Recognizer.Dispose | src/hooks/useSpeechRecognition.ts:116-121 | the recogniser is dropped |

## Left out

- Network, streaming and model calls (`fetch`, `streamText`, `toTextStreamResponse`, `TextDecoder`) are not modelled. A reply is a list of already-decoded chunks.
- `file.text()`, `pdfParse` and `mammoth.extractRawText` are parameters. Byte decoding, PDF parsing and DOCX parsing are not modelled.
- `crypto.randomUUID` and `URL.createObjectURL` are parameters. Freshness of ids is a precondition of the send methods.
- `URL.revokeObjectURL` is not modelled as an effect. `RemoveFile` returns the URL it would revoke, and the cleanup effect that revokes all URLs when `files` changes is not modelled.
- Persistence to session and local storage, the hydration flag (`hasHydrated`, `setHasHydrated`), rendering, scrolling, textarea auto-resize, drag and drop state, and `syncHidden` with its hidden input are not modelled.
- The skip reason texts write out what `toFixed(0)` prints for the two limits ("5MB", "15MB"). Floating point formatting is not modelled.
- String lengths count characters, not UTF-16 code units, and `toLowerCase` is modelled on ASCII letters only.
- Login: a body that is not JSON, and email or password values that are not strings, are reduced to `None`. The thrown parse error is not modelled.
- ChatRoute.PromptOf: a "prompt" entry that is a file rather than a string is not modelled.
- src/app/api/login/chat/route.ts, src/actions/auth.ts, the pages, the Messages and preview components, and src/components/molecules/Composer.tsx are not part of this model.
- Docx.DocxToText is modelled, but no path of the modelled core calls it.
- Badges.TagInput.OnPaste: when a paste is not taken over, the browser inserts the text into the draft. That default insertion is not modelled, and the draft stays unchanged.
- Badges.TagInput: `maxBadges` is an optional integer. Non-integer numbers are not modelled.
- ProfileStore.Merge: a `name` or `email` key that is present but holds `undefined` is not modelled. Only the optional fields can be present and undefined.
- Speech.Recognizer: `lang`, `continuous` and the `supported` flag are not modelled. The exception the recogniser's `start` may throw is swallowed by the source and does not appear.
- Middleware.MatchedPathOutcomes: the gate runs only on the four exact matcher paths. `PrefixGating` states what the prefix tests would do on other paths, which the matcher never passes to the gate.
- SimpleChat.ChatPanel.Send: this screen posts JSON, while the route reads a multipart form. What the route then does is not modelled.
- ComposerFiles.ProcessFiles: the memoisation by `useCallback`, and the stale `files` it may capture, are not modelled. The pending list is passed in.
- Badges.TagInput.OnKeyDown and Badges.TagInput.OnPaste: the source disables the input once `reachedMax` holds (BadgesInput.tsx:170), so no key or paste reaches the handlers. The modelled handlers have no such guard. Any tag a full list would gain is still cut off by `AddMany`'s cap.
- SimpleChat.ChatPanel.Send: the draft is cleared and `isSending` set before the two messages are appended, the reverse of the source's order. No render happens in between, so the resulting state is the same.
