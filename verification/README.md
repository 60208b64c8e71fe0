# Video-to-MCQ front end: a Dafny model

This project models the logic of a React front end. The user uploads a lecture video. The backend transcribes it and generates multiple-choice questions per transcript segment. The front end shows the transcript alongside the video and exports the questions as JSON or CSV.

The model covers:

- the upload-and-poll progress state machine of `processVideo`;
- the segment ids composed and parsed by the service layer;
- the mapping of backend questions and the JSON/CSV export;
- the viewer page's state rules;
- the offline mock services;
- the small validators and formatters of the upload, progress, transcript and player components.

Each part is a module of pure functions over immutable datatypes:

| module | models |
|---|---|
| `Types` | the records and the seven-state `ProcessingStatus` of `src/types/index.ts` |
| `Text` | the JavaScript string operations the code relies on: template numbers, `split`, `parseInt`, `padStart`, `replace(/"/g, '""')`, `String.fromCharCode` |
| `TimeFormat` | the `m:ss` label (`formatTime`, which both components define identically), with a reader as its partner |
| `Csv` | a writer of records and an independent reader of comma-separated values (section 2 of RFC 4180, with a line feed ending each record); the reader is the partner of the export writer |
| `ApiServices` | `processVideo`: upload, the polling loop as a fold over the sequence of poll outcomes, and the final settlement |
| `PollReference` | a second, history-based definition of each poll emission, proved equal to the fold, plus scenario lemmas |
| `ApiQueries` | segment ids, `getTranscriptSegments`, `getMCQuestions`, `getAllQuestions`; the backend is a value of maps, where a missing key is a failed request |
| `ApiExport` | `exportMCQs`: the JSON export record and the CSV text |
| `IndexPage` | the viewer state of `Index.tsx` and its handlers |
| `FileUploader`, `ProcessingIndicator`, `TranscriptSegmentView`, `VideoPlayer` | the components |
| `MockServices` | `mockProcessVideo`, `mockGetTranscriptSegments`, `mockGetMCQuestions` |

The model follows the code where the intended behaviour and the code differ:

- A server `error` phase does not end polling. The `throw` at `apiServices.ts:93` is caught by the inner `catch`, which keeps polling. So nothing emitted while polling has status `error` (`ErrorPhaseKeepsPolling`).
- Each poll waits before it asks.
- The in-progress counter is never reset by a checkpoint. Progress is therefore not monotonic over a whole run (`ProgressCanDrop`); only the in-progress ticks are ordered (`TickBounds`).
- Parsing a composed segment id recovers the video id exactly when no occurrence of `_segment_` starts inside the video id followed by the separator (`Unambiguous`). Merely not containing `_segment_` is not enough: `a_segment` followed by `_segment_0` splits at the first occurrence (`AmbiguousVideoId`).

## Model

| member | source | states |
|---|---|---|
| ApiServices.Step | src/services/apiServices.ts:57-107 | One poll: nothing is emitted exactly for a failed request or an `error` phase, and the loop finishes exactly on `completed`. Only `completed` emits a `complete` status. An in-progress tick shows min(counter + 5, 95), at least 5 and at most 95, and the counter never falls below min(old, 95). |
| ApiServices.Poll | src/services/apiServices.ts:50-108 | The polling loop over a finite sequence of outcomes. It exits iff some outcome is `completed`, and then it has consumed exactly up to the first one. The last emission is the `complete` checkpoint iff it exited, and no earlier emission is `complete`. Every emitted status is processing, transcribing, generating or complete. |
| ApiServices.ProcessVideo | src/services/apiServices.ts:24-131 | The first emission is (uploading, 0). A rejected or malformed upload emits exactly (error, 0) next and throws. An accepted upload emits (uploading, 100) then the poll emissions. It resolves iff some poll says `completed`, returning the server id and the file's name, size and type. An `error` status appears iff it throws. It resolves iff its last emission is the `complete` checkpoint. |
| PollReference.StageAfter | src/services/apiServices.ts:51-82 | The stage shown after any history of outcomes is processing, transcribing or generating. |
| PollReference.StepAgrees | src/services/apiServices.ts:60-107 | The loop's step, started from the state a history leaves, emits what the history-based projection says and reaches the state of the extended history. |
| PollReference.PollMatchesReference | src/services/apiServices.ts:50-108 | For every outcome sequence, the fold's emissions equal the independent history-based reference applied to the consumed prefix. |
| PollReference.TickBounds | src/services/apiServices.ts:52-101 | Every in-progress tick of a run shows between 5 and 95, and the ticks never decrease along the run. |
| PollReference.HappyPath | src/services/apiServices.ts:30-91 | uploaded, transcribing, generating, completed produce exactly the six fixed checkpoints and resolve with the file. |
| PollReference.ErrorPhaseKeepsPolling | src/services/apiServices.ts:92-107 | An `error` phase emits nothing and the call is still polling afterwards. |
| PollReference.ProgressCanDrop | src/services/apiServices.ts:68-101 | After the transcribing checkpoint (40) an unknown phase shows 5: progress is not monotonic. |
| Text.NatToString | src/services/apiServices.ts:144 | A number in a template literal is a non-empty digit string that denotes the number, one digit exactly below 10. This holds for numbers below 10^21 (see Left out). |
| Text.NatToStringInjective | src/services/apiServices.ts:144 | Different numbers print differently. |
| Text.Split | src/services/apiServices.ts:162 | `split` gives at least one part, the parts joined with the separator restore the string, and no part contains the separator. It gives one part iff the separator does not occur; otherwise every cut is the leftmost occurrence in what remains, so the first part ends where `indexOf` finds the separator. |
| Text.SplitCutsFirst | src/services/apiServices.ts:162 | After cutting at the first occurrence, `split` continues with the text that follows it. |
| Text.SplitInTwo | src/services/apiServices.ts:162-165 | `split` gives exactly two parts iff the separator occurs and does not occur again after the end of its first occurrence. |
| Text.ParseInt | src/services/apiServices.ts:168 | `parseInt(s, 10)` skips leading white space. It is `NaN` iff what follows is neither a digit nor a sign followed by a digit. Otherwise it is the value of the leading digits, negated after `-`, unchanged after `+`. |
| Text.ParseIntNeedsDigit | src/services/apiServices.ts:168 | A number result needs a digit somewhere in the text. |
| Text.TrimSkipsSpace | src/services/apiServices.ts:168 | All that `parseInt` skips before the number is white space. |
| Text.ParseIntOfNat | src/services/apiServices.ts:144-168 | A printed number followed by a non-digit parses back to the number. |
| Text.EscapeQuotes | src/services/apiServices.ts:269-273 | Doubling quotes never shortens a text and leaves a quote-free text unchanged. |
| Text.PadStart | src/components/TranscriptSegment.tsx:25 | `padStart` reaches the width, keeps the text at the end and fills the front with the pad character. |
| Text.FromCharCode | src/services/apiServices.ts:274 | A code below the surrogates is that character; a code whose low 16 bits are a surrogate reads as U+FFFD. |
| ApiQueries.ParseSegmentId | src/services/apiServices.ts:162-168 | An id is accepted iff `split` cuts it exactly once, otherwise the failure carries "Invalid segment ID format". A parsed id has the video id as a prefix, and the cut is at the first `_segment_`, right after the video id. The index is `parseInt` of the rest. |
| ApiQueries.TwoSeparatorsRejected | src/services/apiServices.ts:162-165 | `v_segment_1_segment_2` has three parts and is rejected. |
| ApiQueries.SegmentId | src/services/apiServices.ts:144 | A segment id starts with the video id, has `_segment_` right after it, and ends with the canonical decimal numeral of the index: no leading zero unless the index is 0. |
| ApiQueries.SegmentIdRoundTrip | src/services/apiServices.ts:144-168 | Parsing a composed id gives back the video id and index iff the video id is unambiguous. Indices are exact integers (see Left out). |
| ApiQueries.NoUnderscoreUnambiguous | src/services/apiServices.ts:144-162 | A video id without `_` always round-trips. |
| ApiQueries.AmbiguousVideoId | src/services/apiServices.ts:144-162 | `a_segment` does not round-trip, although it does not contain `_segment_`. |
| ApiQueries.SegmentIdInjective | src/services/apiServices.ts:144 | Composing is injective on unambiguous video ids. |
| ApiQueries.FirstCorrect | src/services/apiServices.ts:191 | `findIndex(isCorrect)` is -1 iff no option is correct; otherwise it is a correct option with no correct option before it. |
| ApiQueries.OptionTexts | src/services/apiServices.ts:190 | Option texts keep the options' number and order. |
| ApiQueries.ToQuestions | src/services/apiServices.ts:186-192 | Every backend question maps, in order, to one with its id, text, option texts, first correct index and the given segment id. |
| ApiQueries.TranscriptionId | src/services/apiServices.ts:171-176 | A transcription id is known iff the transcription request succeeds with a non-empty `_id`. |
| ApiQueries.GetMCQuestions | src/services/apiServices.ts:159-200 | Every question carries the requested segment id and an answer index in -1..options-1. Any failure gives the empty list: a malformed id, a missing transcription. |
| ApiQueries.SegmentQuestionsRoute | src/services/apiServices.ts:159-200 | For a composed id the questions are those listed for the segment's transcription and index, converted in order, and empty when any request fails or the reply is not a list. |
| ApiQueries.GetAllQuestions | src/services/apiServices.ts:203-234 | With a transcription and a list reply, every listed question is converted in order and filed under its own segment's id; otherwise the empty list. |
| ApiQueries.FileUnderSegments | src/services/apiServices.ts:221-227 | Each question is filed under the composed id of its segment index. |
| ApiQueries.AllQuestionsPointBack | src/services/apiServices.ts:162-223 | The segment id of every fetched question parses back to the video and that question's segment index. |
| ApiQueries.ToSegments | src/services/apiServices.ts:143-149 | Segments keep count and order; each is tagged with the video id and its composed id. |
| ApiQueries.GetTranscriptSegments | src/services/apiServices.ts:134-156 | Fails with "Failed to fetch transcript segments" iff the request fails. A missing or empty segment list gives the empty list; otherwise count, order, times and texts are kept. |
| ApiQueries.ListedSegmentQuestions | src/services/apiServices.ts:144-168 | Every listed segment's id parses back to its video and segment index. |
| ApiExport.ToExportItem | src/services/apiServices.ts:246-252 | An export item copies id, question, options and answer index. Its answer text is present iff the index is within the options, and is then the option at the index. |
| ApiExport.ToExportItems | src/services/apiServices.ts:246-252 | The items are the questions' export items, one per question and in order. |
| ApiExport.ExportJson | src/services/apiServices.ts:242-253 | The JSON record names the video, its total equals the number of questions, and item i is question i's export item. |
| ApiExport.PadOptions | src/services/apiServices.ts:261-265 | Padding appends empty strings until there are at least four options and keeps the existing ones. |
| ApiExport.AnswerLetter | src/services/apiServices.ts:274 | The letter is one character: A to Z for the first 26 indices, in order, and `@` for the `-1` of a question with no correct option. |
| ApiExport.RowCells | src/services/apiServices.ts:260-275 | A row has seven cells: the id bare, the question quoted, the first four options quoted with missing ones empty, and the answer letter bare. |
| ApiExport.CsvBody | src/services/apiServices.ts:260-278 | The body is empty iff there are no questions; otherwise it starts with the first question's row and ends with a line feed. |
| ApiExport.ExportCsv | src/services/apiServices.ts:258-280 | The CSV text starts with the header line, is exactly the header without questions, and ends with a line feed. |
| ApiExport.AnswerLetterIndex | src/services/apiServices.ts:274 | The answer letter of index -1 onwards is one character whose code minus 65 is the index, and it is safe as an unquoted cell. |
| ApiExport.RowReadsBack | src/services/apiServices.ts:267-275 | A question's row reads back as its id, question, first four padded options and answer letter. |
| ApiExport.BodyReadsBack | src/services/apiServices.ts:258-280 | A safe header line followed by the rows reads back as the header and one record per question. |
| ApiExport.ExportCsvReadsBack | src/services/apiServices.ts:258-280 | The CSV export reads back as the header record and then exactly one record per question, in order, with un-doubled quotes. |
| ApiExport.FormatsAgree | src/services/apiServices.ts:251-274 | For an answer among the first four options, the CSV letter is A to D and the option it names equals the JSON answer text. |
| ApiExport.ExportMCQs | src/services/apiServices.ts:237-286 | The export is JSON iff JSON was asked for. Either way it is built from all of the video's questions. |
| ApiExport.ExportCountsAgree | src/services/apiServices.ts:245-280 | The CSV of a video has one record more than the JSON total. |
| Csv.ReadQuotedEscaped | src/services/apiServices.ts:269-273 | Un-doubling the quotes of a quoted cell restores the text and stops at the closing quote. |
| Csv.ReadEncodedRecord | src/services/apiServices.ts:267-277 | A written record reads back as its cell texts. |
| Csv.ReadEncodedRecords | src/services/apiServices.ts:258-280 | Written records read back record by record. |
| IndexPage.HealthChecked | src/pages/Index.tsx:45-58 | A health result sets connected or disconnected and changes nothing else. |
| IndexPage.HandleReset | src/pages/Index.tsx:238-247 | Reset restores every field of the initial state and keeps the connection. |
| IndexPage.ResetIdempotent | src/pages/Index.tsx:238-247 | Resetting twice is resetting once, and resetting a fresh state changes nothing. |
| IndexPage.SegmentIds | src/pages/Index.tsx:113-119 | The keys stored are exactly the fetched segments' ids. |
| IndexPage.LoadQuestions | src/pages/Index.tsx:110-128 | Every segment gets a key. Its list is the fetched questions, or empty when the fetch failed, and its loading flag ends false. Keys of other segments are untouched. |
| IndexPage.LoadTranscriptAndQuestions | src/pages/Index.tsx:96-138 | On a transcript failure only the loading flag changes. Otherwise the segments are shown, the question map has exactly their ids, every flag ends false, and the first segment becomes active when there is one. |
| IndexPage.FailureIsolated | src/pages/Index.tsx:117-123 | A failed fetch for one segment stores an empty list for it and does not affect another segment's questions. |
| IndexPage.HandleFileSelect | src/pages/Index.tsx:68-93 | Without a connection nothing changes. With one, the error message shows iff `processVideo` throws; on success the video is set and the complete checkpoint shows, and only then. A throw leaves the segments, the questions and the video untouched. A returned non-empty id loads its transcript; when that listing succeeds, the segments are the listed ones and each segment id maps to its `getMCQuestions` reply. When the listing fails, or the id is empty, segments and questions stay as they were. |
| IndexPage.FailureReenablesUploader | src/pages/Index.tsx:84-92 | After a failed upload the uploader is enabled again. |
| IndexPage.UploaderDisabled | src/pages/Index.tsx:297-300 | Without a connection the uploader is disabled. With one, it is disabled iff the status is uploading, processing, transcribing, generating or complete. |
| IndexPage.ExportDisabled | src/pages/Index.tsx:335-341 | The export buttons are disabled iff the questions map is empty. |
| IndexPage.PollingDisablesUploader | src/pages/Index.tsx:75-77 | While `processVideo` is still polling the uploader is disabled. |
| IndexPage.FindSegmentAt | src/pages/Index.tsx:145-147 | The first segment with start <= t < end, or none when no segment holds t. |
| IndexPage.HandleVideoTimeUpdate | src/pages/Index.tsx:141-152 | The time is stored. When some segment holds the time, the first such segment becomes active. When none does, the active id is kept. Nothing else changes. |
| IndexPage.HandleSegmentSelect | src/pages/Index.tsx:155-158 | Selecting makes the segment active and moves the time to its start, changing nothing else. |
| IndexPage.SelectThenPlay | src/pages/Index.tsx:141-158 | Playing from a selected segment's start keeps it active when no earlier segment holds that time. |
| IndexPage.MinuteRange | src/pages/Index.tsx:177-195 | The label is two digit fields around a dash, denoting start and end in whole minutes, each without a leading zero unless it is 0. |
| IndexPage.FindSegmentById | src/pages/Index.tsx:165 | The first segment with the id, or none when no segment has it. |
| IndexPage.HandleExportQuestions | src/pages/Index.tsx:161-206 | An export exists iff a video is loaded and the segment has questions. Its items are the JSON export items. The time range and file name use the minute range, or "Unknown" and `questions_segment_0-0.json` for an unknown segment. |
| IndexPage.HandleExportAllQuestions | src/pages/Index.tsx:209-235 | A download exists iff a video is loaded. It is `exportMCQs` of that video, and its type and name are JSON ones iff the document is JSON. |
| IndexPage.LoadedTotal | src/pages/Index.tsx:489 | After loading, when no two listed segments share an id, the question total summed over the map equals the sum of the fetched list lengths. A repeated id is stored once, so it is counted once. |
| IndexPage.MapTotalAnyOrder | src/pages/Index.tsx:489 | The displayed total is the list lengths summed over the map's keys, in any order: an empty map totals 0, and any entry can be counted first. |
| IndexPage.ListedIdsDistinct | src/services/apiServices.ts:143-149 | The listed segments of one video have distinct ids iff the backend's segment indices are distinct. |
| IndexPage.LoadedTotalDistinctIndices | src/pages/Index.tsx:489 | When the backend lists each segment index once, the displayed total after a load is the sum of the fetched list lengths. |
| FileUploader.Validate | src/components/FileUploader.tsx:54-69 | A file is accepted iff its type matches and its size is at most 500 MiB. A type mismatch is reported whatever the size. |
| FileUploader.SizeBoundary | src/components/FileUploader.tsx:57-66 | Exactly 524,288,000 bytes is accepted, one byte more is too large, and an empty type is rejected. |
| FileUploader.DragOver | src/components/FileUploader.tsx:22-26 | Dragging over sets the highlight unless disabled. |
| FileUploader.DragLeave | src/components/FileUploader.tsx:28-32 | Leaving clears the highlight. |
| FileUploader.Drop | src/components/FileUploader.tsx:34-45 | A drop clears the highlight. It selects nothing when disabled, otherwise the first file iff it is valid. |
| FileUploader.InputChange | src/components/FileUploader.tsx:47-52 | The input selects the first file iff it is valid. |
| FileUploader.OnlyFirstFileMatters | src/components/FileUploader.tsx:41-50 | Files after the first never affect a drop or an input change. |
| ProcessingIndicator.StatusMessage | src/components/ProcessingIndicator.tsx:13-32 | Every status has a non-empty message that reads back to that status. |
| ProcessingIndicator.StatusMessageNamesStatus | src/components/ProcessingIndicator.tsx:13-32 | Each status message names its status: reading it back gives the status. |
| ProcessingIndicator.StatusMessagesDistinct | src/components/ProcessingIndicator.tsx:13-32 | Two statuses share a message iff they are equal. |
| ProcessingIndicator.Description | src/components/ProcessingIndicator.tsx:54 | The description is never empty. It is the message when there is a non-empty one, otherwise the message naming the status. |
| ProcessingIndicator.Icons | src/components/ProcessingIndicator.tsx:38-50 | Exactly one icon: spinner iff neither complete nor error, check iff complete, cross iff error. |
| ProcessingIndicator.PercentLabel | src/components/ProcessingIndicator.tsx:62 | The label is digits denoting the progress, without a leading zero unless it is 0, then `%`. |
| TimeFormat.FormatTime | src/components/TranscriptSegment.tsx:22-26 | Digits, a colon, then two digits below 60; minutes * 60 + seconds gives back the input. The minutes carry no leading zero unless they are 0. |
| TimeFormat.FormatTimeRoundTrip | src/components/VideoPlayer.tsx:67-71 | Reading a label back gives the seconds it was made from. |
| TranscriptSegmentView.Header | src/components/TranscriptSegment.tsx:35 | Both ends of the header read back as the segment's start and end. |
| TranscriptSegmentView.CountLabel | src/components/TranscriptSegment.tsx:51 | The label's number is the count of questions, without a leading zero unless it is 0. |
| TranscriptSegmentView.QuestionNumber | src/components/TranscriptSegment.tsx:55 | Question i is labelled Q followed by the digits of i + 1, with no leading zero. |
| TranscriptSegmentView.QuestionNumbersDistinct | src/components/TranscriptSegment.tsx:55 | Different questions get different labels. |
| TranscriptSegmentView.OptionLetter | src/components/TranscriptSegment.tsx:60 | Option i is labelled by the character with code 65 + i. |
| TranscriptSegmentView.OptionLettersDistinct | src/components/TranscriptSegment.tsx:60 | Different options get different letters. |
| TranscriptSegmentView.Highlighted | src/components/TranscriptSegment.tsx:57-63 | At most one option is highlighted: the correct one when it is an option index, none otherwise (-1 included). |
| VideoPlayer.TogglePlayPause | src/components/VideoPlayer.tsx:30-39 | The play state flips and nothing else changes. |
| VideoPlayer.ToggleTwice | src/components/VideoPlayer.tsx:30-39 | Two toggles restore the player. |
| VideoPlayer.SeekTo | src/components/VideoPlayer.tsx:24-28 | A given time moves the playback position there; no time changes nothing. |
| VideoPlayer.HandleTimeUpdate | src/components/VideoPlayer.tsx:41-50 | The position is stored as the progress and forwarded unchanged. |
| VideoPlayer.HandleLoadedMetadata | src/components/VideoPlayer.tsx:52-56 | Only the duration changes. |
| VideoPlayer.HandleSliderChange | src/components/VideoPlayer.tsx:58-65 | The slider value becomes both the progress and the playback position. |
| VideoPlayer.SliderThenReport | src/components/VideoPlayer.tsx:41-65 | After a slider move the next time report forwards the slider value. |
| VideoPlayer.SliderMax | src/components/VideoPlayer.tsx:96 | The maximum is positive, and is the duration when that is known. |
| VideoPlayer.TimeLabel | src/components/VideoPlayer.tsx:103 | Both ends of the label read back as the progress and the duration. |
| MockServices.MockProcessVideo | src/services/mockServices.ts:10-59 | Thirteen updates from (uploading, 0) to (complete, 100), phases in order, no complete or error before the last. The handle copies name, size and type. |
| MockServices.ScriptStepsForward | src/services/mockServices.ts:18-46 | Every step of the script stays in its phase or moves to a later one, and progress within a phase does not fall. |
| MockServices.StepsForwardGlobally | src/services/mockServices.ts:18-46 | Those local steps give the global order: phases never go back, and any two updates of one phase are in progress order. |
| MockServices.MockGetTranscriptSegments | src/services/mockServices.ts:62-94 | Twelve segments of 300 s, back to back from 0 to 3600, each with the video id, its id and text i. |
| MockServices.MockSegmentAt | src/services/mockServices.ts:83-91 | Second t of the mock video lies in segment t / 300, and in none from 3600 on. |
| MockServices.RemoveAt | src/services/mockServices.ts:152 | `splice(k, 1)` removes exactly position k, shifting the rest left. |
| MockServices.DrawIndices | src/services/mockServices.ts:147-155 | The drawing loop returns the indices the draws select, all distinct and all in the pool. |
| MockServices.MockGetMCQuestions | src/services/mockServices.ts:96-168 | Three to five questions, one per draw, with distinct pool entries. Each carries the segment id and copies its pool entry's question, options and answer. |
| MockServices.SpliceKeepsDistinct | src/services/mockServices.ts:148-155 | Moving a drawn index out of the available ones keeps all indices distinct. |

## Left out

- HTTP and the browser: `apiCall`, `fetch`, `FormData`, `checkAPIHealth` and its 30-second interval, object URLs, download links, toasts, logging and rendering. Server replies, the health result, object URLs and upload times are parameters.
- The sleeps before each poll and after a failed poll, and the async plumbing. The unbounded polling loop is modelled over a finite sequence of outcomes; a run that never sees `completed` is reported as still polling.
- `Math.random` and `generateId`: the mock's draws and generated ids are parameters.
- `JSON.stringify` layout, `new Date()`, `toISOString` and the `exportedAt` timestamps: the JSON exports are modelled as records, not text.
- Floating-point times: video times and sizes are whole numbers (`nat`); `Math.floor(seconds % 60)` is then plain remainder.
- Segment indices, question counts and progress are JavaScript numbers, modelled as unbounded naturals. From 10^21 on, `${n}` writes exponent form (`1e+21`), which `parseInt` reads back as 1. `parseInt` also rounds digit strings above 2^53. Neither is modelled, so Text.NatToString and ApiQueries.SegmentIdRoundTrip describe indices below 10^21, and exact parsing only up to 2^53.
- `file.type.match(acceptedTypes)` is modelled as substring containment. That is exact for `video/mp4`, the default and the value the page passes, which holds no regular-expression metacharacter. An `acceptedTypes` with metacharacters (a `.`, `*` or `|`) is not modelled as a pattern.
- `String.fromCharCode` of a lone surrogate is represented as U+FFFD, since Dafny strings hold Unicode scalar values; this arises only for answer indices far outside any option list (55231 and above, or far below -1).
- Text.ParseInt: skips only the listed JavaScript white-space characters (not the other Unicode space separators or line terminators).
- A backend question without `options` (the `map` call would throw) is not modelled; every question has a list of options.
- The "Failed to export questions" error of `exportMCQs` is not modelled. In the code the `.replace` calls inside the `try` throw on a question or option whose text is missing; the typed model has every text present, so those replies cannot be written down.
- The intermediate `isLoadingQuestions = true` renders during loading are not kept; only the final state of a load is modelled.
- The mock `exportMCQs` and `wait`, `src/components/AppLayout.tsx` and `src/pages/NotFound.tsx` (layout and routing only).
- ApiExport.ExportCsvReadsBack: stated for questions whose ids hold no comma, quote or line feed, and whose answer letter is below the surrogates. The export writes ids unquoted, so other ids do not read back as one cell.
- ApiQueries.GetMCQuestions: for ids that are not composed by the front end (a non-numeric index, say), only the failure cases and the segment-id tagging are stated.
