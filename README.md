# Gift card OCR — a verified model of the client's logic

The application is a browser client. The user drops or picks images of
prepaid gift cards. The client sends each image to a hosted multimodal model,
which returns the card's serial number and password. The results appear in a
table that can be copied as tab-separated text. The recognition happens
entirely in the remote service. What this project models is the sequential
logic around that call:

- `js_runtime.dfy` (`JsRuntime`): the JavaScript built-ins the code relies on.
  These are optional values, thrown values, settled promises, and the string
  functions `startsWith`, `includes`, `split`, `join` and integer-to-decimal.
  `split` and `join` come with round-trip lemmas.
- `types.dfy` (`Types`): the result record (`GiftCardData`), its three
  statuses, the part of a `File` the code reads, and the two extracted fields.
- `gemini_service.dfy` (`GeminiService`): the extraction client's local logic.
  It takes the payload out of the data URL, defaults an empty or absent field
  to `"N/A"`, translates a failure inside its `try` into one of two fixed
  messages, and passes on a failure before the `try` as it was thrown.
- `file_uploader.dfy` (`FileUploader`): the order-preserving `image/` filter,
  the rule for when a drop or a pick is forwarded at all, and the drop zone's
  `isDragging` flag, as a class.
- `results_display.dfy` (`ResultsDisplay`): the TSV export, its round trip,
  and the single status badge each row shows.
- `app.dfy` (`App`): the application component.
  - The component is a class with the four pieces of state (`selectedFiles`,
    `results`, `isLoading`, `error`) and the methods `HandleFilesSelected`,
    `ClearFiles` and `ProcessImages`. The loop in `ProcessImages` is proved
    against the pure specification `Processed`.
  - The service's answers are a parameter: `outcomes[i]` settles the i-th
    file. This covers every combination of successes and failures.
  - What the user does while a call is pending is also a parameter:
    `interleaved[i]`, a list of select and clear actions. This is how the
    model states that a clear during a run leaves the table empty.
  - Progress is the integer half-up rounding `(200k + n) / (2n)` of the share
    of resolved rows.

Points of the code's behaviour the model follows closely:

- A failed image read is never reported: the reader's `onloadend` handler
  only ever calls `resolve`, so a read that yields no string leaves the
  promise pending. That path is not modelled (see below).
- The key comes only from the environment. Nobody enters a credential, and
  the process button depends only on `isLoading` and the selection.
- Progress uses floating-point `Math.round((k/n)*100)`. The division
  rounds first, so at .5 boundaries it can disagree with exact rounding
  (57 of 200 gives 28.499999999999996 and so 28). The model uses exact
  half-up rounding.
- Failures thrown before the extraction client's `try` propagate
  untranslated; only failures inside the `try` become one of the two fixed
  messages. In practice only the client's construction can throw there;
  the model allows any thrown value at that point.
- `split(',')[1]` is the text between the first and the second comma, not
  everything after the first comma. It is missing when there is no comma at
  all. A real data URL has exactly one comma, and `DataUrlPayload` covers
  that case.
- A success merges the extracted fields into the old row, so it keeps that
  row's `errorMessage`. This is visible only when two files share an id and
  an earlier one failed. The error badge is not shown for a successful row,
  so the stale message never appears.

## Model

| member | source | states |
|---|---|---|
| JsRuntime.Split | gift-card-ocr/services/geminiService.ts:9 | `split` on one character gives at least one piece; no piece contains the separator; there is exactly one piece iff the separator is absent |
| JsRuntime.SplitJoin | gift-card-ocr/components/ResultsDisplay.tsx:36 | joining separator-free pieces and splitting again gives the pieces back |
| JsRuntime.JoinSplit | gift-card-ocr/components/ResultsDisplay.tsx:36 | splitting any string and joining with the same separator gives the string back |
| JsRuntime.NatToDecimalDigits | gift-card-ocr/App.tsx:32 | the decimal text of a timestamp consists of digits only, so it never contains the `-` that separates it from the name |
| JsRuntime.DecimalRoundTrip | gift-card-ocr/App.tsx:32 | the digits of `n` denote `n`, so the rendering is injective |
| GeminiService.FileToGenerativePart | gift-card-ocr/services/geminiService.ts:15-19 | the part carries the file's MIME type; it has a payload iff the data URL contains a comma |
| GeminiService.DataUrlPayload | gift-card-ocr/services/geminiService.ts:9 | for a data URL `header,payload` without further commas, the payload is exactly the text after the comma |
| GeminiService.OrNotAvailable | gift-card-ocr/services/geminiService.ts:56-57 | an absent or empty field becomes `"N/A"`; a non-empty one is returned unchanged; the result is never empty |
| GeminiService.Normalise | gift-card-ocr/services/geminiService.ts:55-58 | the success value holds exactly `serialNumber` and `password`: an absent or empty one becomes `"N/A"`, a non-empty one is kept |
| GeminiService.NormaliseIdempotent | gift-card-ocr/services/geminiService.ts:55-58 | normalising an already normalised result changes nothing |
| GeminiService.TranslateError | gift-card-ocr/services/geminiService.ts:59-66 | the message is one of two fixed texts; it is the invalid-key text iff the thrown value is an `Error` whose message includes `'API key not valid'` |
| GeminiService.ExtractGiftCardInfo | gift-card-ocr/services/geminiService.ts:24-66 | it resolves iff the response parsed, with the normalised fields; a failure inside the `try`, including a parse failure, rejects with an `Error` carrying the translated message; a failure before the `try` is rethrown as it was |
| GeminiService.ExtractionNeverLeaksMessage | gift-card-ocr/services/geminiService.ts:26-65 | a rejection from inside the `try` never carries the upstream text, only one of the two fixed messages; a failure before it passes through unchanged; a resolution has no empty field |
| FileUploader.ImagesOnly | gift-card-ocr/components/FileUploader.tsx:39 | the filter's result is no longer than its input and holds only `image/` files |
| FileUploader.ImagesOnlyCount | gift-card-ocr/components/FileUploader.tsx:39 | every copy of an `image/` file is kept and no copy of any other file, so duplicates are not merged |
| FileUploader.ImagesOnlyAppend | gift-card-ocr/components/FileUploader.tsx:39 | filtering a concatenation is the concatenation of the filtered parts, so the filter decides file by file |
| FileUploader.ImagesOnlyIsSubsequence | gift-card-ocr/components/FileUploader.tsx:39 | the kept files are a subsequence of the input, in the same relative order |
| FileUploader.ImagesOnlyMembership | gift-card-ocr/components/FileUploader.tsx:39-48 | a file is kept iff it was offered and its type starts with `image/` (the predicate `IsImage`) |
| FileUploader.ImagesOnlyIdempotent | gift-card-ocr/components/FileUploader.tsx:39 | filtering an already filtered list returns it unchanged |
| FileUploader.Accepted | gift-card-ocr/components/FileUploader.tsx:37-40 | nothing is forwarded for an absent or empty list; otherwise the filtered list is forwarded, possibly empty |
| FileUploader.DropZone.constructor | gift-card-ocr/components/FileUploader.tsx:11 | the drop zone starts without the highlight |
| FileUploader.DropZone.DragEnter | gift-card-ocr/components/FileUploader.tsx:19-25 | the flag turns on only when at least one item is dragged, and is otherwise left as it was |
| FileUploader.DropZone.DragLeave | gift-card-ocr/components/FileUploader.tsx:27-31 | drag-leave turns the flag off |
| FileUploader.DropZone.DragOver | gift-card-ocr/components/FileUploader.tsx:14-17 | drag-over changes no state |
| FileUploader.DropZone.Drop | gift-card-ocr/components/FileUploader.tsx:33-43 | drop turns the flag off and forwards exactly what the filter accepts |
| ResultsDisplay.TsvRows | gift-card-ocr/components/ResultsDisplay.tsx:36 | one export line per row, in the table's order |
| ResultsDisplay.CopyAllText | gift-card-ocr/components/ResultsDisplay.tsx:34-43 | export text exists iff the table has rows; it starts with the fixed header line and its newline |
| ResultsDisplay.TsvRowRoundTrip | gift-card-ocr/components/ResultsDisplay.tsx:36 | a row line (`TsvRow`, the template) has no newline and splits on tabs into file name, serial number and password |
| ResultsDisplay.TsvRoundTrip | gift-card-ocr/components/ResultsDisplay.tsx:35-37 | for a non-empty table without tabs or newlines in its fields, the export `Tsv` (header plus the rows joined by newlines) splits into the header plus one line per row, each giving back its triple |
| ResultsDisplay.TsvOfEmptyTable | gift-card-ocr/components/ResultsDisplay.tsx:35-37 | the export of an empty table would be the header followed by one empty line; the component returns nothing for an empty table instead |
| ResultsDisplay.Badges | gift-card-ocr/components/ResultsDisplay.tsx:86-90 | each row shows exactly one badge, the one for its status; the error badge carries the row's message |
| App.FileIdInjective | gift-card-ocr/App.tsx:32 | for non-negative timestamps, two files share an id (`FileId`, the key `name-lastModified` used at lines 32, 46 and 54) only when name and timestamp both agree |
| App.FileIdCollision | gift-card-ocr/App.tsx:32 | with a negative timestamp, two different files can share an id |
| App.InitialData | gift-card-ocr/App.tsx:31-38 | one row per selected file, in order, each `pending`, with `'...'` in both fields and id `name-lastModified` |
| App.Resolve | gift-card-ocr/App.tsx:45-57 | a settled row keeps its id and label and is no longer pending; success merges the fields; failure writes `'錯誤'` twice and records the message |
| App.ApplyOutcome | gift-card-ocr/App.tsx:45-57 | every row with the file's id takes the outcome; every other row is unchanged; the length is preserved |
| App.FailedRowShowsTranslatedMessage | gift-card-ocr/App.tsx:50-57 | a row whose extraction failed inside the client's `try` shows one of the client's two fixed messages |
| App.SetupFailureShowsOwnMessage | gift-card-ocr/App.tsx:50-57 | a row whose extraction failed before the client's `try` shows the thrown `Error`'s own message, or `'未知錯誤'` for any other thrown value |
| App.Select | gift-card-ocr/App.tsx:14-17 | new files are appended after the existing selection in their order; the error is cleared; the results are untouched |
| App.Clear | gift-card-ocr/App.tsx:19-23 | selection, results and error are all emptied |
| App.Start | gift-card-ocr/App.tsx:28-39 | a run starts loading with no banner, the selection unchanged, and one pending row per selected file keyed by its id |
| App.StartDisablesButton | gift-card-ocr/App.tsx:71 | pressing the enabled button (`IsProcessButtonDisabled` false) starts a run over at least one row, and the button is disabled from then on |
| App.Settle | gift-card-ocr/App.tsx:45-57 | settling one file leaves rows with other ids unchanged, takes every row with its id out of `pending`, keeps the selection and loading flag, and on failure sets the banner to the message |
| App.MessageOf | gift-card-ocr/App.tsx:51 | an `Error`'s own message is shown; any other thrown value shows `'未知錯誤'` |
| App.Processed | gift-card-ocr/App.tsx:25-62 | an empty selection changes nothing; otherwise loading is off once the run ends |
| App.RowAfter | gift-card-ocr/App.tsx:41-58 | the updates keep a row's id and label |
| App.RowAfterUntouched | gift-card-ocr/App.tsx:45-56 | a row no file's id matches is left as it was |
| App.RowAfterLastMatch | gift-card-ocr/App.tsx:45-56 | the last file matching a row's id decides the row |
| App.RowAfterResolved | gift-card-ocr/App.tsx:45-56 | a row that some file matches ends not pending |
| App.RowAfterSharedId | gift-card-ocr/App.tsx:45-56 | rows sharing an id take the same updates and end alike except for their label |
| App.PerformAllEffect | gift-card-ocr/App.tsx:14-23 | user actions never touch the loading flag; only a clear changes the rows, and it empties them |
| App.RunKeepsLoading | gift-card-ocr/App.tsx:41-59 | the loading flag stays set through the loop |
| App.RunNeverRefills | gift-card-ocr/App.tsx:45-57 | once the rows are cleared during a run they stay empty, because updates only map over the current list |
| App.RunRows | gift-card-ocr/App.tsx:41-58 | without a clear the loop (`Run`, one `Settle` after the user's actions per file) keeps the same number of rows, each the result of the updates matching its id |
| App.DisabledThroughoutRun | gift-card-ocr/App.tsx:71 | the process button is disabled at every step of a run |
| App.NoRowLeftPending | gift-card-ocr/App.tsx:41-61 | after a run no row is `pending`, whatever the outcomes and whatever the user did meanwhile |
| App.RunKeepsRows | gift-card-ocr/App.tsx:31-58 | without a clear, a run ends with exactly one row per selected file, in order; with a clear, with none |
| App.RowGetsOwnOutcome | gift-card-ocr/App.tsx:41-58 | with unique ids and no clear, row i ends as file i's outcome applied to its pending row |
| App.SharedIdTakesLastOutcome | gift-card-ocr/App.tsx:45-56 | with duplicate ids and no clear, a row shows the status and fields of the outcome of the last file with its id |
| App.SharedIdRowsAgree | gift-card-ocr/App.tsx:45-56 | with no clear, rows whose files share an id end with the same status, fields and message |
| App.LastFailureWins | gift-card-ocr/App.tsx:50-58 | failures never stop the loop; with no user action meanwhile, the banner ends as the last failure's message, or none |
| App.Completed | gift-card-ocr/App.tsx:66 | the count of resolved rows never exceeds the row count |
| App.CompletedAll | gift-card-ocr/App.tsx:66 | the count equals the row count iff no row is pending |
| App.CompletedMonotone | gift-card-ocr/App.tsx:66 | a step that never turns a resolved row back to pending never lowers the count |
| App.Percent | gift-card-ocr/App.tsx:67 | the percentage is at most 100 and is the nearest whole percent of k/n, halves rounded up |
| App.Progress | gift-card-ocr/App.tsx:64-68 | progress lies within 0..100 and is 0 when there are no rows |
| App.PercentAll | gift-card-ocr/App.tsx:67 | all rows resolved gives exactly 100 |
| App.PercentNone | gift-card-ocr/App.tsx:67 | no row resolved gives 0 |
| App.PercentMonotone | gift-card-ocr/App.tsx:67 | more resolved rows never give a lower percentage |
| App.ProgressNeverDecreases | gift-card-ocr/App.tsx:45-57 | settling one file never lowers the progress |
| App.ProgressAcrossSteps | gift-card-ocr/App.tsx:41-58 | without a clear, progress never goes down from one loop step to the next |
| App.ProgressCompleteAfterRun | gift-card-ocr/App.tsx:41-68 | a run that was not cleared ends at 100% |
| App.AppComponent.constructor | gift-card-ocr/App.tsx:9-12 | the component starts with no files, no results, not loading and no error |
| App.AppComponent.HandleFilesSelected | gift-card-ocr/App.tsx:14-17 | the new state is `Select` of the old one |
| App.AppComponent.ClearFiles | gift-card-ocr/App.tsx:19-23 | the new state is `Clear` of the old one |
| App.AppComponent.AwaitCall | gift-card-ocr/App.tsx:44 | the user actions performed while a call is pending take the state to `PerformAll` of the old one |
| App.AppComponent.SettleFile | gift-card-ocr/App.tsx:45-57 | settling one file takes the state to `Settle` of the old one: matching rows updated, and on failure the banner set |
| App.AppComponent.ProcessImages | gift-card-ocr/App.tsx:25-62 | the loop over the selection snapshot, with the user's actions between calls, ends in the state `Processed` specifies |

## Left out

- The call to the hosted model, the client construction and the environment
  key are foreign. What they do is the parameter `CallOutcome`: a value
  thrown before the `try` (`SetupThrew`), a parsed response (`Parsed`) or a
  value thrown inside the `try` (`Threw`). The run takes `outcomes`, so
  every combination is covered. Which thrown values the library can
  produce before the `try` is not modelled: any value is allowed.
- Base64 encoding through `FileReader` is a browser API. The model starts
  from the data URL it yields. A reader that yields no string leaves the
  promise pending forever; that path is not modelled.
- Preview URLs (`URL.createObjectURL`) are browser resources. So is the
  `imagePreviewUrl` field of the record, which is therefore omitted.
- Clipboard writes, the two-second "copied" indicator, `console.error`, and
  all JSX rendering, styling and icons are I/O or presentation.
- React's asynchronous scheduling and stale closures are modelled as a
  sequential loop over a snapshot of the selection. User actions are allowed
  only between calls.
- App.Percent: exact half-up rounding. It does not claim agreement with
  floating-point `Math.round` at .5 boundaries (for example 57 of 200).
- App.LastFailureWins: stated only for runs with no user action during the
  run. A select or clear during a run resets the banner, and a later failure
  sets it again.
- GeminiService.Normalise: the parsed fields are absent or strings. A
  non-string value that the schema excludes is not modelled.
- JsRuntime.IntToDecimal: renders integers only. `lastModified` is an integral
  millisecond count, so fractional and exponent forms never arise.
