# AI sprite-sheet generator: a Dafny model

The application lets a user upload a picture of a character and asks an image
model for a 4×4 walk-cycle sprite sheet. Its logic is small. This project
models all of it and proves what it promises:

- **Generation client** (`gemini_service.dfy`, module `GeminiService`).
  - `fileToGenerativePart` accepts a narrow subset of `data:` URLs: the pattern
    `^data:(image\/\w+);base64,(.*)$`. Here it is a scanner. It is proved to
    accept exactly the strings of that pattern, to round-trip, and to reject
    non-word subtypes and media-type parameters.
  - `generateSpriteSheet` parses the input before any request. It then scans
    the first candidate's parts for the first inline image. Every failure is
    rewritten into one generic message.
  - The image model is a parameter `service`: what the SDK answers for a given
    image part.
  - The part scan is a `for` loop (`SelectImageData`). It is proved equal to a
    recursive first-match function.
- **Upload area** (`image_uploader.dfy`, module `ImageUploader`).
  - The acceptance rule for a picked or dropped file list.
  - The `isDragging` flag: a class that keeps a ghost history of drag events.
    A lemma states exactly when the flag is set after any sequence of events.
- **Application screen** (`app.dfy`, module `App`).
  - The four state cells, with pure transition functions on a `State` value.
    Each asynchronous handler is split into a start event and a completion
    event.
  - The generate-button rule and the result panel's display priority.
  - Event runs, the invariants that reachable states keep, and end-to-end
    runs across all three parts.
  - The class `AppComponent` holds the four cells. Its methods are proved
    against the transition functions. It follows the code as written: a
    failed read runs `onerror` and then `onloadend` with `null`
    (`ReadFailsAsWritten`), so it keeps the display invariant but not
    `UploadHasData`.
- `wrappers.dfy` holds `Option`/`Result`; `text.dfy` holds `StartsWith`.

A subtle point is modelled explicitly. The uploader accepts every type under
`image/`, but the parser only accepts `image/` followed by word characters.
So an SVG upload passes the uploader and then fails at generation. The user
sees only the generic failure message (`SvgUploadFailsAtGeneration`).

The `onerror` handler (App.tsx:22-24) evidently means a failed read to show
its message. As written it does not, because `onloadend` runs after it (see
Findings). The model records both versions: `StepAsWritten`/`RunAsWritten`
follow the code, and `Step`/`Run` use the corrected read failure. The stored
upload is whatever `readAsDataURL` produced, a data URL labelled with the
file's type. `FileReader` is not part of this model, so the read result is an
input.

## Model

| member | source | states |
|---|---|---|
| `GeminiService.WordRun` | services/geminiService.ts:14 | the greedy `\w+` run: a prefix of word characters followed by a non-word character or the end |
| `GeminiService.FileToGenerativePart` | services/geminiService.ts:13-27 | failure is always "Invalid base64 image string"; success means the input is `data:` + an `image/<word chars>` MIME type + `;base64,` + a payload without line terminators |
| `GeminiService.ParseDataUrl` | services/geminiService.ts:14-26 | round trip: `data:image/<s>;base64,<d>` parses to MIME type `image/<s>` and data `d` |
| `GeminiService.ParseSucceedsIff` | services/geminiService.ts:14-17 | parsing succeeds if and only if the whole string matches the regular expression |
| `GeminiService.NonWordSubtypeRejected` | services/geminiService.ts:14-16 | a subtype containing `+`, `-`, `.` or any other non-word character other than `;` is rejected |
| `GeminiService.ParameterRejected` | services/geminiService.ts:14-16 | a media-type parameter before `;base64` is rejected |
| `GeminiService.ParameterIsNotMarker` | services/geminiService.ts:14 | `;attr=...` with a comma-free attribute never begins with `;base64,` |
| `GeminiService.SvgDataUrlRejected` | services/geminiService.ts:14-16 | `data:image/svg+xml;base64,...` is rejected |
| `GeminiService.ResponseParts` | services/geminiService.ts:48 | parts are found only in the first candidate; any missing link gives no parts, and when every link is present the parts are exactly the first candidate's parts |
| `GeminiService.OnlyFirstCandidate` | services/geminiService.ts:48 | candidates after the first never change the parts scanned |
| `GeminiService.ImageData` | services/geminiService.ts:48-52 | nothing exactly when no part has inline data; otherwise the data of a part with inline data and none before it |
| `GeminiService.FirstImagePart` | services/geminiService.ts:48-52 | the index of the first part with inline data, with none before it; `None` exactly when no part has inline data |
| `GeminiService.SelectImageData` | services/geminiService.ts:48-52 | the loop returns the first image part's data, and nothing exactly when no part has inline data |
| `GeminiService.FirstImageWins` | services/geminiService.ts:48-52 | earlier non-image parts are skipped and later image parts ignored |
| `GeminiService.Attempt` | services/geminiService.ts:31-54 | the `try` body: a request is sent exactly when the input parses, and carries the parsed part; without a request the error is the null-argument or invalid-image message; success means the model answered and the first image part's data is the value; a model fault keeps its detail, and an answer without an image fails with "No image was generated in the API response." |
| `GeminiService.Generation` | services/geminiService.ts:29-60 | every failure reaching the caller carries the generic message |
| `GeminiService.GenerateSpriteSheet` | services/geminiService.ts:29-60 | the imperative parse–call–scan–rewrite yields exactly the request and result of `Generation` |
| `GeminiService.EveryFailureIsGeneric` | services/geminiService.ts:56-58 | the `catch` keeps successes and the request sent, and turns every specific error into the generic message |
| `GeminiService.MalformedInputNeverCallsService` | services/geminiService.ts:31-35 | a malformed input never reaches the model and fails with the generic message |
| `GeminiService.RequestIsParsedImage` | services/geminiService.ts:31-46 | a request is sent if and only if the input is well formed, and it carries the parsed MIME type and payload |
| `GeminiService.NoImageIsFailure` | services/geminiService.ts:48-54 | a response without an inline image fails and is never an empty success |
| `GeminiService.GenerationSucceedsIff` | services/geminiService.ts:29-60 | success if and only if the input parses, the model answers and the first candidate holds an image; the value is that image's data |
| `ImageUploader.HandleFileChange` | components/ImageUploader.tsx:14-23 | a null or empty list does nothing; the first file is uploaded if and only if its type starts with `image/`; otherwise the alert is raised |
| `ImageUploader.UploadedFilesAreImages` | components/ImageUploader.tsx:17-21 | an uploaded file comes from the list unchanged and is an image type; a non-image first file raises the alert |
| `ImageUploader.OnlyFirstFileCounts` | components/ImageUploader.tsx:15-16 | files after the first never change the outcome |
| `ImageUploader.DragStep` | components/ImageUploader.tsx:25-49 | after one event the flag is set exactly when it was an enter with items, or the flag was set and the event was an enter or a drag-over |
| `ImageUploader.Replay` | components/ImageUploader.tsx:25-49 | a run ending in a leave or a drop leaves the flag clear; drag-overs alone never change it |
| `ImageUploader.DraggingIff` | components/ImageUploader.tsx:30-49 | from the start, the flag is set if and only if some drag-enter with items has not been followed by a leave or a drop |
| `ImageUploader.DropArea.constructor` | components/ImageUploader.tsx:11 | the flag starts false with an empty history |
| `ImageUploader.DropArea.HandleDragIn` | components/ImageUploader.tsx:30-36 | sets the flag only when the transfer has at least one item; otherwise it is unchanged |
| `ImageUploader.DropArea.HandleDrag` | components/ImageUploader.tsx:25-28 | drag-over leaves the flag unchanged |
| `ImageUploader.DropArea.HandleDragOut` | components/ImageUploader.tsx:38-42 | clears the flag |
| `ImageUploader.DropArea.HandleDrop` | components/ImageUploader.tsx:44-49 | clears the flag and applies the acceptance rule to the dropped files |
| `App.PngDataUrl` | App.tsx:40 | the displayed result is `data:image/png;base64,` followed by the payload, whatever the uploaded type |
| `App.Render` | App.tsx:89-106 | the spinner while loading, then a non-empty error, then a non-empty result, then the placeholder |
| `App.ReadSucceeded` | App.tsx:17-21 | a successful read stores `{file, result}` with its data, clears result and error, and keeps `isLoading` |
| `App.OnLoadEnd` | App.tsx:17-21 | stores `{file, result}`, clears result and error, keeps `isLoading` |
| `App.OnReadError` | App.tsx:22-24 | sets the read-error message and changes nothing else |
| `App.ReadFailedAsWritten` | App.tsx:15-26 | as written, a failed read ends with no error, no result and a stored upload whose data is `null` |
| `App.ReadFailed` | App.tsx:22-24 | a read failure sets the read-error message and keeps the image, the result and the loading flag |
| `App.ReadFailureShowsMessage` | App.tsx:22-24 | outside a request, a read failure shows its message in the panel |
| `App.ReadFailureAsWrittenHidesError` | App.tsx:15-26 | as written, a read failure ends with no error shown, a stored upload without data, and a generation that can only fail |
| `App.UploadClearsResultAndError` | App.tsx:17-21 | a read stores `{file, result}`, clears the result and the error, and keeps `isLoading` |
| `App.GenerateStart` | App.tsx:28-36 | without an image only the notice is set; with one, loading starts with error and result cleared and the image kept |
| `App.LaunchOf` | App.tsx:28-36 | a call is started exactly when an image is stored, with the stored data URL |
| `App.GenerateSettle` | App.tsx:38-45 | loading ends and the image is kept; success sets the PNG result and keeps the error; failure sets the message and keeps the result |
| `App.GenerateDisabled` | App.tsx:70 | disabled while loading; enabled exactly when an image is stored and nothing is loading |
| `App.PressGenerate` | App.tsx:70 | a disabled press changes nothing; an enabled one starts loading with error and result cleared; never sets the "upload first" notice |
| `App.PressLaunch` | App.tsx:70 | a click starts a call exactly when the button is enabled, and then the call `LaunchOf` gives |
| `App.GenerateWithoutImage` | App.tsx:29-32 | without an image, the notice is set, nothing is sent, and loading and result are unchanged |
| `App.GenerateStartClears` | App.tsx:34-36 | with an image, loading starts with error and result cleared, and the stored data URL is sent |
| `App.AtMostOneRequestInFlight` | App.tsx:70 | while loading, the button is disabled, so a press changes nothing and sends nothing |
| `App.SettleOutcomes` | App.tsx:38-45 | loading always ends; success sets the PNG result; failure sets the thrown message and keeps the result |
| `App.PressThenSettle` | App.tsx:34-45 | a press and its completion show the PNG sheet on success, or the generic message with no result on failure |
| `App.GenerationIsServiceOutcome` | App.tsx:39-42 | every error `handleGenerate` receives from the client is the generic message |
| `App.StepPreservesInvariant` | App.tsx:15-46 | with the corrected read failure, each event keeps the invariant: a stored upload holds data, no result while loading, results are PNG data URLs |
| `App.RunPreservesInvariant` | App.tsx:15-46 | with the corrected read failure, every run of events keeps that invariant |
| `App.RunShowsOnlyKnownErrors` | App.tsx:28-46 | behind the button the "upload first" branch is never taken, and only the read or generic message is ever shown |
| `App.ReachableStates` | App.tsx:10-46 | with the corrected read failure, every state reachable from the start keeps the invariant and shows only known messages |
| `App.RunAsWrittenShowsOnlyKnownErrors` | App.tsx:15-46 | with the read failure as written, every run keeps no result while loading and PNG-only results, shows only known messages, and never the "upload first" notice |
| `App.ReachableStatesAsWritten` | App.tsx:10-46 | with the read failure as written, every state reachable from the start keeps the display consistent and shows only known messages |
| `App.StaleResultAfterNewUpload` | App.tsx:15-46 | a request that settles after a newer upload still shows its sheet beside the newer image |
| `App.SvgUploadFailsAtGeneration` | App.tsx:39-42 | an SVG file passes the uploader, but generating from it never calls the model and shows the generic failure |
| `App.PngUploadParses` | App.tsx:39 | a PNG data URL is sent with type `image/png` and its payload |
| `App.PngEndToEnd` | App.tsx:34-45 | PNG upload, press, and a text part then an image part: that image is shown as a PNG data URL, with no error |
| `App.Abc123EndToEnd` | App.tsx:40 | payload "ABC123" is displayed as `data:image/png;base64,ABC123` |
| `App.AppComponent.constructor` | App.tsx:10-13 | the cells start empty, not loading, without error |
| `App.AppComponent.ImageRead` | App.tsx:17-21 | `onloadend` with a data URL or `null`: the cells change as `OnLoadEnd` says, keep the display invariant, and the upload holds data exactly when the result is not `null` |
| `App.AppComponent.ImageReadFailed` | App.tsx:22-24 | `onerror`: the cells change as `OnReadError` (equally `ReadFailed`) says and keep the display invariant |
| `App.AppComponent.ReadFailsAsWritten` | App.tsx:15-26 | `onerror` then `onloadend` with `null`: the cells change as `ReadFailedAsWritten` says, with no error and an upload without data |
| `App.AppComponent.HandleGenerate` | App.tsx:28-36 | the cells change as `GenerateStart` says; the call started is the stored data URL, or none without an image |
| `App.AppComponent.GenerationSettled` | App.tsx:38-45 | the cells change as `GenerateSettle` says and keep the display invariant |
| `App.GenerateThroughComponent` | App.tsx:28-46 | press, client call and completion: the cells become `GenerateSettle(GenerateStart(old), Generation(stored data URL).result)`, so the upload is kept, loading ends, and either the PNG sheet is shown or the generic error |

## Left out

- The `@google/genai` SDK call, the model name, the prompt text and the requested output modality (services/geminiService.ts:33-46). These are a foreign network call. The model replaces them with the `service` parameter, and `Call.request` records the image part that would be sent.
- The `API_KEY` check at module load (services/geminiService.ts:4-8). It is process configuration.
- `console.error` logging and `alert`. These are I/O. The alert appears only as the `Alerted` dispatch.
- `FileReader` itself. The data URL produced by `readAsDataURL` is an input, not computed from the file's bytes. Abort events are not modelled.
- React scheduling and batching, and real concurrency. Each handler is split into a start event and a completion event. Overlapping requests are only prevented by the disabled button (`PressGenerate`).
- `components/SpriteSheetDisplay.tsx`, all JSX markup, CSS, icons, the `Loader`, the upload preview and `openFileDialog`. These are presentation only.
- The `match.length !== 3` test (services/geminiService.ts:15). A successful match always has three entries, so it adds no behaviour.
- The `"An unknown error occurred."` branch (App.tsx:42). `generateSpriteSheet` only ever throws `Error` instances, so that branch is never taken.
- The SDK allows an inline-data part without `data`. The model always gives response inline data a string, so `undefined` never reaches the screen.
- The exact `TypeError` text for a `null` argument depends on the JavaScript engine. The model uses V8's wording, and the text is swallowed by the `catch` anyway.

## Findings

| source | as written | input that shows it | evidently intended | confidence | as-written member | corrected member |
|---|---|---|---|---|---|---|
| App.tsx:15-26 | `onloadend` clears `error` and stores `{file, base64: reader.result}`. The File API fires `loadend` after `error`, so after a failed read the message is wiped at once, and an upload whose data is `null` is stored. | Any file whose read fails (e.g. one deleted after it was picked): the panel shows no error, the generate button is enabled, and generating fails with the generic message. | The read-error message stays visible, and the previous upload and result are kept. | high; not executed | `App.ReadFailureAsWrittenHidesError` | `App.ReadFailed` |
