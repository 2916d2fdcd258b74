# Clearminutes core, modelled in Dafny

Clearminutes turns a meeting recording into structured minutes. The browser
uploads an audio file, and the server validates it and creates a job. A
background task then transcribes the audio, summarises it and extracts action
items. The browser polls the job until it completes, then shows the minutes.
From there the user can copy them as plain text or download them as Markdown.

This project models the deciding logic of that flow as pure functions over
immutable data. It proves properties of them.

- `AudioValidation` (validation.dfy): the two validators, `validate_audio_file`
  on the server and `validate` in the upload view. They are proved to accept
  exactly the same (name, size) pairs.
- `Minutes` (minutes.dfy): the result record and action items. It also holds the
  line-run helpers that the two serialisers and their decoders share.
- `CopyText` (copytext.dfy): the "Copy as Text" renderer and a line-level decoder
  for it. The decoder reads every rendered field back.
- `MarkdownExport` (export.dfy): the Markdown export built by `export_job`, its
  decoder, and the attachment name.
- `ActionView` (actionview.dfy): the low-confidence filter, the toggle, and the
  "None recorded" and "No action items found" fallbacks of the results view.
- `Fences` (fences.dfy): removal of a Markdown code fence from the language
  model's reply. The same code appears twice in `summarization.py`; it is
  defined here once.
- `Jobs` (jobs.dfy): the server's job store and its lifecycle
  (pending → processing → completed | failed). It also models the `upload`,
  `get_job` and `export` endpoints with their error codes.
- `UploadView` (uploadview.dfy) and `ProcessingView` (processingview.dfy): the two
  client pages as state machines over events.
- `Text` (text.dfy) and `Prelude` (prelude.dfy): the string operations the source
  relies on. These are `split`, `join`, `startswith`, ASCII lower-casing, an
  `Option` type and JavaScript truthiness for optional strings.

Each serialiser's partner is its decoder. The round-trip lemma recovers the
file name, overview, key points, decisions and open questions. Action items come
back only as their rendered line bodies: a task "a (b)" with no assignee copies
exactly like the task "a" with assignee "b", and an empty assignee or deadline
copies like a missing one. The Markdown export
cannot tell an empty decision list from a single decision that reads
"None recorded". The copied text can, because its placeholder has no bullet.
A further lemma shows that joining the lines with `\n` and splitting again
gives the lines back, as long as no field holds a newline.

## Model

| member | source | states |
|---|---|---|
| AudioValidation.ValidateAudioFile | backend/services/transcription.py:13-19 | The file is accepted exactly when its lower-cased last extension is one of the six formats and the size is at most 25 MiB. The message is empty exactly on acceptance. A bad extension gives a message starting `Unsupported format '.ext'`. A good extension with too many bytes gives the too-large message. |
| AudioValidation.ServerRawExtension | backend/services/transcription.py:14 | `rsplit(".", 1)[-1]` is the final `.`-free segment of the name, which is the whole name when there is no dot. |
| AudioValidation.LastIndexOf | backend/services/transcription.py:14 | Finds the position of the last `.`. Nothing after that position is a `.`, and None means the name holds no `.`. |
| AudioValidation.Validate | frontend/src/pages/Upload.jsx:15-22 | Returns the empty string exactly for an accepted extension and a size of at most 25 MiB. Otherwise it returns the exact unsupported-format message listing the six formats in order, or the too-large message. |
| AudioValidation.ClientRawExtensionIsFinal | frontend/src/pages/Upload.jsx:16 | `split(".").pop()` yields the final `.`-free segment of the name. |
| AudioValidation.RawExtensionsAgree | frontend/src/pages/Upload.jsx:16 | The browser's `split(".").pop()` and the server's `rsplit(".", 1)[-1]` give the same extension for every name. |
| AudioValidation.ClientServerAgree | frontend/src/pages/Upload.jsx:5-20 | Browser and server accept exactly the same (name, size) pairs, and they agree on when the too-large message is the reason. |
| AudioValidation.FormatCheckedBeforeSize | backend/services/transcription.py:15-18 | A file with a bad extension and too many bytes is reported for its format, on both sides. |
| AudioValidation.SizeBoundary | backend/services/transcription.py:17-19 | 26214400 bytes is accepted and 26214401 bytes is refused with the too-large message, on both sides. |
| AudioValidation.UpperCaseAccepted | backend/services/transcription.py:14 | `A.MP3` is accepted on both sides: extension matching ignores case. |
| AudioValidation.NoDotUsesWholeName | backend/services/transcription.py:14 | A name without a dot is its own extension, so a file called `mp3` passes both checks. |
| Text.JoinSplit | backend/services/summarization.py:68 | Splitting on a separator and joining the pieces with it gives back the original text. |
| Text.SplitPiecesAreFree | backend/services/summarization.py:68 | No piece produced by `split` contains the separator. |
| Text.SplitJoin | frontend/src/pages/Results.jsx:70 | Lines without the one-character separator, once joined, split back into the same lines. |
| CopyText.CopyLines | frontend/src/pages/Results.jsx:48-70 | The copied lines start with the header, a blank line, `OVERVIEW`, the overview, a blank line and `KEY POINTS`. One `• ` line per key point follows, in order, then a blank line and `DECISIONS`. The line count is fixed by the lengths of the sections. |
| CopyText.ParseCopyLines | frontend/src/pages/Results.jsx:48-70 | Every copied field can be read back in order from the lines: file name, overview, key points, decisions, open questions and the action-item bodies. |
| CopyText.CopyDistinguishesPlaceholder | frontend/src/pages/Results.jsx:58 | An empty decision list and a decision that reads "None recorded" copy differently. |
| CopyText.KeyPointsWithoutPlaceholder | frontend/src/pages/Results.jsx:54-57 | With no key points, `KEY POINTS` is followed directly by the blank line and `DECISIONS`. |
| CopyText.CopyTextSplitsIntoLines | frontend/src/pages/Results.jsx:70 | When no field holds a newline, the clipboard text splits on `\n` into exactly the assembled lines. |
| CopyText.ExampleCopy | frontend/src/pages/Results.jsx:48-70 | A concrete result with one key point, no decisions or questions, and one action item with an assignee and an empty deadline. Its copy is exactly sixteen lines, and the empty deadline adds nothing. |
| MarkdownExport.ExportLines | backend/main.py:150-176 | The export starts with `# Meeting Minutes — name` and the Overview section. One `- ` line per key point follows. It always ends with a blank line, `---`, `## Full Transcript`, a blank line and the transcript. The line count is fixed by the lengths of the sections. |
| MarkdownExport.Shown | backend/main.py:150-151 | The decision and question lines are the dash lines of the items as shown: the items themselves, or the single placeholder when there are none. |
| MarkdownExport.ParseExportLines | backend/main.py:150-176 | Every field can be read back in order from the export. Decisions and open questions come back as shown, placeholder included, and the action items come back as their check-box bodies. |
| MarkdownExport.ExportPlaceholderIsAmbiguous | backend/main.py:150-151 | In the export, an empty decision or question list is indistinguishable from one item reading "None recorded". |
| MarkdownExport.EmptyActionsHaveNoPlaceholder | backend/main.py:168-176 | With no action items, `## Action Items` is followed directly by the transcript footer. |
| MarkdownExport.ExportDocumentSplitsIntoLines | backend/main.py:179 | When no field holds a newline, the response body splits on `\n` into exactly the export lines. |
| MarkdownExport.AttachmentName | backend/main.py:180 | The download name is `minutes_` followed by the first eight characters of the job id (all of it when shorter) and `.md`. |
| ActionView.VisibleActions | frontend/src/pages/Results.jsx:84-86 | An item is shown exactly when it is in the list and the toggle is on or its confidence is not "low". |
| ActionView.VisibleActionsAppend | frontend/src/pages/Results.jsx:84-86 | The filter distributes over concatenation, so the kept items stay in their input order. |
| ActionView.ShowAllIsIdentity | frontend/src/pages/Results.jsx:85 | With the toggle on, every item is shown, in order. |
| ActionView.HiddenAreExactlyLow | frontend/src/pages/Results.jsx:84-86 | With the toggle off, the list shrinks exactly when some item is low-confidence; otherwise it is unchanged. |
| ActionView.ToggleOfferedIffItMatters | frontend/src/pages/Results.jsx:189-196 | The low-confidence toggle is offered exactly when pressing it changes which items are shown. |
| ActionView.RenderActions | frontend/src/pages/Results.jsx:166-198 | `No action items found` is shown exactly when the action list is empty. Otherwise the filtered items are shown, with the toggle offered exactly when some item is low. |
| ActionView.RenderList | frontend/src/pages/Results.jsx:119-130 | A list section shows "None recorded" exactly when its list is empty, and otherwise the items unchanged. |
| Fences.StripFences | backend/services/summarization.py:67-70 | Text not starting with three backticks is returned unchanged. Fenced text yields a result with no three backticks in it. |
| Fences.BodyRunsToNextFence | backend/services/summarization.py:68 | After the opening fence, the kept piece runs to the next fence, or to the end when there is none. |
| Fences.FencedLayout | backend/services/summarization.py:67-70 | Fenced text consists of the opening fence, a `json` tag exactly when the text after the fence starts with `json` (no tag otherwise), the result, and then nothing or a closing fence. No fence starts inside the tag or the result. |
| Fences.FencedLayoutUnique | backend/services/summarization.py:67-70 | Only one tag and one result fit that layout, so with FencedLayout it fully characterises the stripped text: everything up to the next fence, less a literal leading `json` and nothing else. |
| Fences.StripUnwraps | backend/services/summarization.py:84-87 | A backtick-free payload wrapped in fences comes back unchanged, with or without a `json` tag and with anything after the closing fence. |
| Fences.UpperCaseTagKept | backend/services/summarization.py:69 | Only the lower-case `json` tag is dropped; `JSON` stays in the output. |
| Jobs.UploadAudio | backend/main.py:76-105 | A file the validator refuses yields 400 with the validator's message and leaves the store unchanged. An accepted file adds a pending job under the fresh id and acknowledges it as "pending". |
| Jobs.BeginProcessing | backend/main.py:33-36 | The job is marked "processing" and nothing else changes. A missing job changes nothing. |
| Jobs.BuildResult | backend/main.py:48-56 | The result row takes the transcript and action items as given. Each summary field falls back to "" or the empty list when missing. |
| Jobs.FinishProcessing | backend/main.py:38-69 | On success the result is stored and the job is completed. On an exception the job is failed with the exception text and no result is stored. |
| Jobs.GetJob | backend/main.py:108-135 | 404 "Job not found" exactly for an unknown id. Otherwise it reports the id, the stored status, file name and error message, and includes the result exactly when the job is completed and a result row exists. |
| Jobs.ExportJob | backend/main.py:138-181 | 404 "Job not found or not completed" exactly when the job is missing or not completed. A success carries the rendered Markdown of the stored result and the attachment name. |
| Jobs.UploadKeepsWellFormed | backend/main.py:93-99 | Upload keeps the store well formed: completed jobs have results, failed jobs have messages, and results belong to known jobs. |
| Jobs.ProcessingKeepsWellFormed | backend/main.py:29-69 | Each step of the background task keeps the store well formed. |
| Jobs.ExportNeverFailsInternally | backend/main.py:141-145 | In a well-formed store the export succeeds exactly for completed jobs, so the missing-row failure cannot happen. |
| Jobs.ResultExactlyWhenCompleted | backend/main.py:123-133 | In a well-formed store `get_job` returns a result exactly for completed jobs. |
| Jobs.LifecycleFollowsSteps | backend/main.py:33-69 | A pending job moves to processing and then to completed or failed, by legal steps only. It completes exactly when the pipeline produces, a failure carries the exception text, and other jobs are untouched. |
| Jobs.RejectedUploadCreatesNoJob | backend/main.py:85-87 | A refused upload leaves the store unchanged and answers 400. |
| UploadView.HandleFile | frontend/src/pages/Upload.jsx:24-29 | An invalid file clears the selection and shows the validator's message. A valid file is selected and the error is cleared. An error is shown exactly when no file is selected. |
| UploadView.HandleFiles | frontend/src/pages/Upload.jsx:31-36 | Only the first dropped or picked file counts, and an empty list changes nothing. |
| UploadView.Submit | frontend/src/pages/Upload.jsx:38-40 | Submitting without a file does nothing. Otherwise the view starts loading and sends the selected file, after which the button is disabled. |
| UploadView.Settle | frontend/src/pages/Upload.jsx:41-47 | Success navigates to `/processing/<id>`. Failure shows the server's detail, or the generic message when there is none, and stops loading. The selected file is kept. |
| UploadView.RetryAfterRejection | frontend/src/pages/Upload.jsx:44-47 | After a rejected upload, the button is enabled again. |
| UploadView.EnabledIffSubmitSends | frontend/src/pages/Upload.jsx:103 | When no upload is in flight, the button is enabled exactly when pressing it sends a request. |
| UploadView.RunKeepsSelectionValid | frontend/src/pages/Upload.jsx:24-48 | Whatever the user does, a selected file has passed validation. |
| UploadView.SelectionValidFromLoad | frontend/src/pages/Upload.jsx:8-11 | Starting from the page's initial state (no file, no error, not loading), any sequence of user actions and replies leaves only a validated file selected. |
| UploadView.SentFileIsAcceptedByServer | frontend/src/pages/Upload.jsx:38-43 | Every file the view sends is one the server's validator accepts. |
| ProcessingView.AdvanceStep | frontend/src/pages/Processing.jsx:17 | The counter grows by one until it reaches 3 and then stays there. |
| ProcessingView.OnPoll | frontend/src/pages/Processing.jsx:21-41 | "completed" stops both timers and navigates to the results. "failed" stops both timers and shows the job's message or "Processing failed.". A failed request (a transport error, or any non-2xx reply such as the 404 for an unknown job) shows "Could not reach the server." and stops both timers. Any other status only records the status. |
| ProcessingView.ApplyKeepsConsistent | frontend/src/pages/Processing.jsx:16-46 | Each event keeps the view consistent and never moves the counter back. In a consistent view the timers run together, a running view has no error and no navigation, at most one navigation happens, and the counter is at most 3. |
| ProcessingView.RunKeepsConsistent | frontend/src/pages/Processing.jsx:16-46 | The same holds along any sequence of events, and the step counter never decreases. |
| ProcessingView.StoppedIsFinal | frontend/src/pages/Processing.jsx:43-46 | Once both timers are cleared, no further tick changes anything. |
| ProcessingView.TeardownStopsEverything | frontend/src/pages/Processing.jsx:43-46 | Leaving the page clears both timers from any state, for good. |
| ProcessingView.QuietKeepsPolling | frontend/src/pages/Processing.jsx:24-35 | Step ticks and replies other than completed or failed keep both timers running, with no error and no navigation. |
| ProcessingView.FailedRequestIsTerminal | frontend/src/pages/Processing.jsx:36-40 | After any number of "processing" replies, a failed request shows "Could not reach the server." and stops polling for good. |
| ProcessingView.CompletionNavigatesOnce | frontend/src/pages/Processing.jsx:26-30 | A "completed" reply navigates to `/results/<id>` exactly once and stops both timers, whatever follows. |
| ProcessingView.FailureShowsMessage | frontend/src/pages/Processing.jsx:31-35 | A "failed" reply shows the job's message when it is non-empty, else "Processing failed.", and stops both timers. |
| ProcessingView.StepCounterSaturates | frontend/src/pages/Processing.jsx:5-17 | After n step ticks the counter shows min(n, 3). |
| ProcessingView.StepAppearance | frontend/src/pages/Processing.jsx:77-80 | Step i is drawn as done exactly when i < step, as current exactly when i = step, and as upcoming otherwise. |
| ProcessingView.Render | frontend/src/pages/Processing.jsx:51-58 | The error panel is shown exactly when the error is non-empty, and it shows that error text. Otherwise the progress list shows the current step. |

## Left out

- Transcription and the language-model calls (Groq) are network services. Their outcome is an input to `Jobs.ProcessMeeting`: data produced, or an exception with its text.
- `json.loads` / `json.dumps` are not modelled. Stored lists are already-decoded sequences, and a reply that is not valid JSON is one more raised exception. Non-string JSON values (a number as a task, a missing `task` key) are outside the data model.
- `str.strip()` on the model's reply, applied before fence removal, is not modelled. `Fences.StripFences` starts from the stripped text.
- Database sessions, commits, `created_at` / `updated_at`, and uuid generation are not modelled. The fresh job id is a parameter required to be unused. Each upload queues exactly one background task (`backend/main.py:103`), so a job gets at most one result row, which the model keeps in a map keyed by job id.
- File storage (`save_upload`, `delete_file`), CORS configuration, `delete_job`, `debug_job` and the health endpoint are plumbing or add no behaviour.
- `file.filename` being absent in an upload is not modelled: file names are strings.
- The Processing view's timers, their 3- and 4-second periods, and overlapping in-flight polls are concurrency. Poll outcomes and ticks are a sequence of events, and a cleared timer's ticks are no-ops.
- In the source, a poll request already in flight when the timers are cleared still runs its callback when it arrives. This happens after leaving the page, or when an earlier reply was terminal, and the callback may then call `setStatus`, `navigate` or `setError` again. The model delivers a reply only while the poll timer runs, so ProcessingView.TeardownStopsEverything ("for good"), ProcessingView.StoppedIsFinal and ProcessingView.CompletionNavigatesOnce ("exactly once") hold for the model's event sequences, not for such late replies.
- axios, the clipboard write, the two-second "Copied!" reset, `window.open` for the export, routing and all JSX/CSS presentation are browser side effects. So are the results view's loading spinner and transcript toggle.
- The MB size shown under the chosen file is floating-point display, and the `accept` filter of the file picker only pre-filters the browser dialog.
- AudioValidation.ValidateAudioFile: the list of formats in the rejection message joins a Python set, whose order is not fixed. The model takes that order as a parameter and promises only the message's prefix.
- Lower-casing is modelled for ASCII letters only. Python's `lower()` and JavaScript's `toLowerCase()` also fold other Unicode letters; no supported extension contains one, but names that differ only in non-ASCII letters are outside the model.

## Behaviour worth noting

- A failed poll request sets the error and clears both timers. The status the processing view recorded last stays as it was (`ProcessingView.OnPoll`).
- The results view shows "None recorded" for an empty key-point, decision or open-question list (`ActionView.RenderList`). An empty action list shows "No action items found" instead (`ActionView.RenderActions`). Key points get no placeholder in the copied text or in the Markdown export, and the export has none for an empty action list (`CopyText.KeyPointsWithoutPlaceholder`, `MarkdownExport.EmptyActionsHaveNoPlaceholder`).
- The generic upload failure message is "Upload failed. Is the backend running?" (`UploadView.Settle`).
