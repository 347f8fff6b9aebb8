/** The application screen (App.tsx): four state cells, the transitions of
    `handleImageUpload` and `handleGenerate` with their asynchronous gaps split
    into separate events, the generate-button rule and the result panel's
    display priority. The transitions are functions on a `State` value; the
    class `AppComponent` holds the four cells and is proved against them. */
module App {
  import opened Wrappers
  import opened Text
  import GeminiService
  import ImageUploader

  type File = ImageUploader.File

  const ReadErrorMessage: string := "Failed to read the image file."
  const UploadFirstMessage: string := "Please upload an image first."
  const PngPrefix: string := "data:image/png;base64,"

  /** `{ file, base64 }`; `base64` is `reader.result`, which is `null` after a
      failed read. */
  datatype UploadedImage = UploadedImage(file: File, base64: Option<string>)

  /** The four `useState` cells (App.tsx:10-13). */
  datatype State = State(
    uploadedImage: Option<UploadedImage>,
    generatedSpriteSheet: Option<string>,
    isLoading: bool,
    error: Option<string>)

  const Initial: State := State(None, None, false, None)

  /** Whether a `string | null` cell is truthy in JavaScript. */
  predicate Truthy(cell: Option<string>) {
    cell.Some? && cell.value != ""
  }

  /** The displayed result of a generated payload: always labelled PNG. */
  function PngDataUrl(payload: string): (url: string)
    ensures StartsWith(url, PngPrefix) && url[|PngPrefix|..] == payload
  {
    PngPrefix + payload
  }

  // ---------------------------------------------------------------------------
  // Reading the uploaded file

  /** `reader.onloadend` (App.tsx:17-21) with `reader.result`. */
  function OnLoadEnd(s: State, file: File, result: Option<string>): (t: State)
    ensures t.uploadedImage == Some(UploadedImage(file, result))
    ensures t.generatedSpriteSheet.None? && t.error.None? && t.isLoading == s.isLoading
  {
    s.(uploadedImage := Some(UploadedImage(file, result)), generatedSpriteSheet := None, error := None)
  }

  /** `reader.onerror` (App.tsx:22-24). */
  function OnReadError(s: State): (t: State)
    ensures t.error == Some(ReadErrorMessage)
    ensures t.uploadedImage == s.uploadedImage && t.generatedSpriteSheet == s.generatedSpriteSheet
    ensures t.isLoading == s.isLoading
  {
    s.(error := Some(ReadErrorMessage))
  }

  /** A successful read: `load` and then `loadend` fire, the latter carrying
      the data URL. */
  function ReadSucceeded(s: State, file: File, result: string): (t: State)
    ensures t.uploadedImage == Some(UploadedImage(file, Some(result))) && UploadHasData(t)
    ensures t.generatedSpriteSheet.None? && t.error.None? && t.isLoading == s.isLoading
  {
    OnLoadEnd(s, file, Some(result))
  }

  /** A failed read as App.tsx:15-26 is written: the File API fires `error`
      and then `loadend` (with a `null` result), so both handlers run. */
  function ReadFailedAsWritten(s: State, file: File): (t: State)
    ensures t.error.None? && t.generatedSpriteSheet.None?
    ensures t.uploadedImage == Some(UploadedImage(file, None))
    ensures t.isLoading == s.isLoading
  {
    OnLoadEnd(OnReadError(s), file, None)
  }

  /** A failed read as evidently intended: only the `onerror` handler's
      effect. This is the transition the rest of the model uses. */
  function ReadFailed(s: State): (t: State)
    ensures t.error == Some(ReadErrorMessage)
    ensures t.uploadedImage == s.uploadedImage && t.generatedSpriteSheet == s.generatedSpriteSheet
    ensures t.isLoading == s.isLoading
  {
    OnReadError(s)
  }

  // ---------------------------------------------------------------------------
  // Generating

  /** What `handleGenerate` passes to `generateSpriteSheet`, if it calls it. */
  datatype Launch = NotLaunched | Launched(imageBase64: Option<string>)

  /** The synchronous part of `handleGenerate` (App.tsx:28-36). */
  function GenerateStart(s: State): (t: State)
    ensures s.uploadedImage.None? ==> t == s.(error := Some(UploadFirstMessage))
    ensures s.uploadedImage.Some? ==>
      t.isLoading && t.error.None? && t.generatedSpriteSheet.None? && t.uploadedImage == s.uploadedImage
  {
    if s.uploadedImage.None? then s.(error := Some(UploadFirstMessage))
    else s.(isLoading := true, error := None, generatedSpriteSheet := None)
  }

  /** The argument of the `generateSpriteSheet` call started by `handleGenerate`. */
  function LaunchOf(s: State): (l: Launch)
    ensures l.Launched? <==> s.uploadedImage.Some?
    ensures l.Launched? ==> l.imageBase64 == s.uploadedImage.value.base64
  {
    if s.uploadedImage.None? then NotLaunched else Launched(s.uploadedImage.value.base64)
  }

  /** The part of `handleGenerate` after the `await` (App.tsx:39-45): the
      `then`/`catch` update followed by the `finally` reset. */
  function GenerateSettle(s: State, outcome: Result<string, string>): (t: State)
    ensures !t.isLoading && t.uploadedImage == s.uploadedImage
    ensures outcome.Success? ==>
      t.generatedSpriteSheet == Some(PngDataUrl(outcome.value)) && t.error == s.error
    ensures outcome.Failure? ==>
      t.error == Some(outcome.error) && t.generatedSpriteSheet == s.generatedSpriteSheet
  {
    match outcome
    case Success(payload) => s.(generatedSpriteSheet := Some(PngDataUrl(payload)), isLoading := false)
    case Failure(message) => s.(error := Some(message), isLoading := false)
  }

  /** `disabled={!uploadedImage || isLoading}` (App.tsx:70). */
  function GenerateDisabled(s: State): (disabled: bool)
    ensures s.isLoading ==> disabled
    ensures !disabled <==> LaunchOf(s).Launched? && !s.isLoading
  {
    s.uploadedImage.None? || s.isLoading
  }

  /** A click on the generate button: nothing when it is disabled. */
  function PressGenerate(s: State): (t: State)
    ensures GenerateDisabled(s) ==> t == s
    ensures !GenerateDisabled(s) ==>
      t.isLoading && t.error.None? && t.generatedSpriteSheet.None? && t.uploadedImage == s.uploadedImage
    ensures t.error != Some(UploadFirstMessage) || t.error == s.error
  {
    if GenerateDisabled(s) then s else GenerateStart(s)
  }

  /** The call a click on the generate button starts. */
  function PressLaunch(s: State): (l: Launch)
    ensures l.Launched? <==> !GenerateDisabled(s)
    ensures l.Launched? ==> l == LaunchOf(s)
  {
    if GenerateDisabled(s) then NotLaunched else LaunchOf(s)
  }

  // ---------------------------------------------------------------------------
  // The result panel

  datatype View = Spinner | ErrorPanel(message: string) | SheetDisplay(spriteSheet: string) | Placeholder

  /** The conditional rendering of App.tsx:89-106: loading, then error, then
      result, then placeholder. */
  function Render(s: State): (v: View)
    ensures v.Spinner? <==> s.isLoading
    ensures v.ErrorPanel? <==> !s.isLoading && Truthy(s.error)
    ensures v.SheetDisplay? <==> !s.isLoading && !Truthy(s.error) && Truthy(s.generatedSpriteSheet)
    ensures v.ErrorPanel? ==> Some(v.message) == s.error
    ensures v.SheetDisplay? ==> Some(v.spriteSheet) == s.generatedSpriteSheet
  {
    if s.isLoading then Spinner
    else if Truthy(s.error) then ErrorPanel(s.error.value)
    else if Truthy(s.generatedSpriteSheet) then SheetDisplay(s.generatedSpriteSheet.value)
    else Placeholder
  }

  // ---------------------------------------------------------------------------
  // Runs of events

  /** The events the screen reacts to: the end of a file read, a press of
      the generate button, and the settling of the request it started. */
  datatype Event =
    | FileRead(file: File, result: string)
    | FileReadFailed(file: File)
    | GeneratePressed
    | GenerationSettled(outcome: Result<string, string>)

  /** One event with a failed read as evidently intended (`ReadFailed`, the
      `onerror` effect alone). */
  function Step(s: State, e: Event): State {
    match e
    case FileRead(file, result) => ReadSucceeded(s, file, result)
    case FileReadFailed(_) => ReadFailed(s)
    case GeneratePressed => PressGenerate(s)
    case GenerationSettled(outcome) => GenerateSettle(s, outcome)
  }

  /** One event with a failed read as App.tsx:15-26 is written
      (`ReadFailedAsWritten`: `onerror` and then `onloadend`). */
  function StepAsWritten(s: State, e: Event): State {
    match e
    case FileReadFailed(file) => ReadFailedAsWritten(s, file)
    case _ => Step(s, e)
  }

  function Run(s: State, events: seq<Event>): State
    decreases |events|
  {
    if events == [] then s else Run(Step(s, events[0]), events[1..])
  }

  function RunAsWritten(s: State, events: seq<Event>): State
    decreases |events|
  {
    if events == [] then s else RunAsWritten(StepAsWritten(s, events[0]), events[1..])
  }

  /** A stored upload holds its data URL. The code as written breaks this
      after a failed read; the corrected read failure keeps it. */
  predicate UploadHasData(s: State) {
    s.uploadedImage.Some? ==> s.uploadedImage.value.base64.Some?
  }

  /** Nothing is shown as a result while loading, and a shown result is a
      PNG data URL. Kept as written and corrected alike. */
  predicate DisplayInvariant(s: State) {
    && (s.isLoading ==> s.generatedSpriteSheet.None?)
    && (s.generatedSpriteSheet.Some? ==> StartsWith(s.generatedSpriteSheet.value, PngPrefix))
  }

  /** The consistency every state reachable with the corrected read failure
      keeps. */
  predicate Invariant(s: State) {
    UploadHasData(s) && DisplayInvariant(s)
  }

  /** The messages a user can see: the read failure, the missing-image
      notice and the generic generation failure, and nothing else. */
  predicate KnownError(s: State) {
    s.error.Some? ==> s.error.value in {ReadErrorMessage, UploadFirstMessage, GeminiService.FailureMessage}
  }

  /** An outcome that `generateSpriteSheet` can deliver. */
  predicate ServiceOutcome(outcome: Result<string, string>) {
    outcome.Failure? ==> outcome.error == GeminiService.FailureMessage
  }

  predicate SettlesWithServiceOutcomes(events: seq<Event>) {
    forall i :: 0 <= i < |events| && events[i].GenerationSettled? ==> ServiceOutcome(events[i].outcome)
  }

  /** Every outcome of the generation client is a service outcome. */
  lemma GenerationIsServiceOutcome(imageBase64: Option<string>, service: GeminiService.InlineData -> GeminiService.Upstream)
    ensures ServiceOutcome(GeminiService.Generation(imageBase64, service).result)
  {
  }

  lemma StepPreservesInvariant(s: State, e: Event)
    requires Invariant(s)
    ensures Invariant(Step(s, e))
  {
  }

  lemma {:induction false} RunPreservesInvariant(s: State, events: seq<Event>)
    requires Invariant(s)
    ensures Invariant(Run(s, events))
    decreases |events|
  {
    if events != [] {
      StepPreservesInvariant(s, events[0]);
      RunPreservesInvariant(Step(s, events[0]), events[1..]);
    }
  }

  /** Through the button, `handleGenerate` is never entered without an image,
      so the "Please upload an image first." branch (App.tsx:29-32) is never
      taken and the user only ever sees the read failure or the generic
      generation failure. */
  lemma {:induction false} RunShowsOnlyKnownErrors(s: State, events: seq<Event>)
    requires KnownError(s) && s.error != Some(UploadFirstMessage)
    requires SettlesWithServiceOutcomes(events)
    ensures KnownError(Run(s, events))
    ensures Run(s, events).error != Some(UploadFirstMessage)
    decreases |events|
  {
    if events != [] {
      var t := Step(s, events[0]);
      assert events[0].GenerationSettled? ==> ServiceOutcome(events[0].outcome);
      assert t.error.Some? ==> t.error.value in {ReadErrorMessage, GeminiService.FailureMessage} || t.error == s.error;
      forall i | 0 <= i < |events[1..]| && events[1..][i].GenerationSettled?
        ensures ServiceOutcome(events[1..][i].outcome)
      {
        assert events[1..][i] == events[i + 1];
      }
      RunShowsOnlyKnownErrors(t, events[1..]);
    }
  }

  /** From the start screen, with the corrected read failure, every reachable
      state is consistent and shows a known message. */
  lemma ReachableStates(events: seq<Event>)
    requires SettlesWithServiceOutcomes(events)
    ensures Invariant(Run(Initial, events)) && KnownError(Run(Initial, events))
    ensures Run(Initial, events).error != Some(UploadFirstMessage)
  {
    RunPreservesInvariant(Initial, events);
    RunShowsOnlyKnownErrors(Initial, events);
  }

  /** With the read failure as written, every event still keeps the display
      consistent, never shows the "upload first" notice, and shows only known
      messages (only `UploadHasData` is lost). */
  lemma {:induction false} RunAsWrittenShowsOnlyKnownErrors(s: State, events: seq<Event>)
    requires DisplayInvariant(s) && KnownError(s) && s.error != Some(UploadFirstMessage)
    requires SettlesWithServiceOutcomes(events)
    ensures DisplayInvariant(RunAsWritten(s, events))
    ensures KnownError(RunAsWritten(s, events))
    ensures RunAsWritten(s, events).error != Some(UploadFirstMessage)
    decreases |events|
  {
    if events != [] {
      var t := StepAsWritten(s, events[0]);
      assert events[0].GenerationSettled? ==> ServiceOutcome(events[0].outcome);
      assert t.error.Some? ==> t.error.value in {ReadErrorMessage, GeminiService.FailureMessage} || t.error == s.error;
      forall i | 0 <= i < |events[1..]| && events[1..][i].GenerationSettled?
        ensures ServiceOutcome(events[1..][i].outcome)
      {
        assert events[1..][i] == events[i + 1];
      }
      RunAsWrittenShowsOnlyKnownErrors(t, events[1..]);
    }
  }

  /** From the start screen, with the read failure as written, every
      reachable state keeps the display consistent and shows only known
      messages. */
  lemma ReachableStatesAsWritten(events: seq<Event>)
    requires SettlesWithServiceOutcomes(events)
    ensures DisplayInvariant(RunAsWritten(Initial, events)) && KnownError(RunAsWritten(Initial, events))
    ensures RunAsWritten(Initial, events).error != Some(UploadFirstMessage)
  {
    RunAsWrittenShowsOnlyKnownErrors(Initial, events);
  }

  // ---------------------------------------------------------------------------
  // Properties of single transitions

  /** A new upload replaces the image and clears any earlier result and
      error, leaving `isLoading` alone. */
  lemma UploadClearsResultAndError(s: State, file: File, result: string)
    ensures ReadSucceeded(s, file, result)
            == State(Some(UploadedImage(file, Some(result))), None, s.isLoading, None)
    ensures Render(ReadSucceeded(s, file, result)) == if s.isLoading then Spinner else Placeholder
  {
  }

  /** A failed read outside a request puts its message in the panel. */
  lemma ReadFailureShowsMessage(s: State)
    ensures !s.isLoading ==> Render(ReadFailed(s)) == ErrorPanel(ReadErrorMessage)
  {
  }

  /** As written, a failed read ends with no error shown, a stored upload
      without data, an enabled button, and a generation that can only fail. */
  lemma ReadFailureAsWrittenHidesError(s: State, file: File, service: GeminiService.InlineData -> GeminiService.Upstream)
    ensures ReadFailedAsWritten(s, file).error.None?
    ensures ReadFailedAsWritten(s, file).uploadedImage == Some(UploadedImage(file, None))
    ensures !Invariant(ReadFailedAsWritten(s, file))
    ensures Render(ReadFailedAsWritten(s, file)) != ErrorPanel(ReadErrorMessage)
    ensures !s.isLoading ==> !GenerateDisabled(ReadFailedAsWritten(s, file))
    ensures GeminiService.Generation(LaunchOf(ReadFailedAsWritten(s, file)).imageBase64, service)
            == GeminiService.Call(None, Failure(GeminiService.FailureMessage))
  {
  }

  /** Generate without an image: the notice is set, nothing is started, and
      neither `isLoading` nor the result changes. */
  lemma GenerateWithoutImage(s: State)
    requires s.uploadedImage.None?
    ensures GenerateStart(s) == s.(error := Some(UploadFirstMessage))
    ensures LaunchOf(s) == NotLaunched
  {
  }

  /** Generate with an image: loading starts with error and result cleared,
      and the uploaded data URL is what is sent. */
  lemma GenerateStartClears(s: State)
    requires s.uploadedImage.Some?
    ensures GenerateStart(s) == s.(isLoading := true, error := None, generatedSpriteSheet := None)
    ensures Render(GenerateStart(s)) == Spinner
    ensures LaunchOf(s) == Launched(s.uploadedImage.value.base64)
  {
  }

  /** While a request is outstanding the button is disabled: a second press
      changes nothing and starts nothing. */
  lemma AtMostOneRequestInFlight(s: State)
    requires s.isLoading
    ensures PressGenerate(s) == s && PressLaunch(s) == NotLaunched
  {
  }

  /** Settling always ends loading; success shows the payload as a PNG data
      URL, failure shows the message and leaves the result as it was. */
  lemma SettleOutcomes(s: State, outcome: Result<string, string>)
    ensures !GenerateSettle(s, outcome).isLoading
    ensures outcome.Success? ==>
      GenerateSettle(s, outcome).generatedSpriteSheet == Some(PngPrefix + outcome.value)
      && GenerateSettle(s, outcome).error == s.error
    ensures outcome.Failure? ==>
      GenerateSettle(s, outcome).error == Some(outcome.error)
      && GenerateSettle(s, outcome).generatedSpriteSheet == s.generatedSpriteSheet
    ensures outcome.Failure? && outcome.error != "" ==>
      Render(GenerateSettle(s, outcome)) == ErrorPanel(outcome.error)
  {
  }

  /** A press followed by the settling of its request: the sheet of the first
      image part is displayed when the call succeeds, the generic message
      otherwise, and in both cases loading is over. */
  lemma PressThenSettle(s: State, service: GeminiService.InlineData -> GeminiService.Upstream)
    requires !GenerateDisabled(s)
    ensures PressLaunch(s).Launched?
    ensures var call := GeminiService.Generation(PressLaunch(s).imageBase64, service);
            var t := GenerateSettle(PressGenerate(s), call.result);
            && !t.isLoading
            && (call.result.Success? ==> Render(t) == SheetDisplay(PngPrefix + call.result.value))
            && (call.result.Failure? ==>
                  Render(t) == ErrorPanel(GeminiService.FailureMessage) && t.generatedSpriteSheet.None?)
  {
    var call := GeminiService.Generation(PressLaunch(s).imageBase64, service);
    if call.result.Success? {
      assert |PngPrefix + call.result.value| >= |PngPrefix|;
    }
  }

  /** A request outlives a new upload: the upload clears the panel, but the
      earlier request still settles into the new state and its sheet is shown
      next to the newer image. */
  lemma StaleResultAfterNewUpload(s: State, file: File, result: string, payload: string)
    requires s.uploadedImage.Some?
    ensures var t := GenerateSettle(ReadSucceeded(GenerateStart(s), file, result), Success(payload));
            && t.uploadedImage == Some(UploadedImage(file, Some(result)))
            && t.generatedSpriteSheet == Some(PngPrefix + payload)
            && Render(t) == SheetDisplay(PngPrefix + payload)
  {
    assert Truthy(Some(PngPrefix + payload)) by {
      assert |PngPrefix + payload| >= |PngPrefix|;
    }
  }

  /** The upload rule accepts every type under `image/`, but the parser only accepts a
      word-character subtype: an SVG file is uploaded, yet generating from it
      never calls the model and ends on the generic failure message. */
  lemma SvgUploadFailsAtGeneration(file: File, payload: string, service: GeminiService.InlineData -> GeminiService.Upstream)
    requires file.contentType == "image/svg+xml"
    ensures ImageUploader.HandleFileChange(Some([file])) == ImageUploader.Uploaded(file)
    ensures var s := PressGenerate(ReadSucceeded(Initial, file, "data:" + file.contentType + ";base64," + payload));
            var call := GeminiService.Generation(PressLaunch(ReadSucceeded(Initial, file, "data:" + file.contentType + ";base64," + payload)).imageBase64, service);
            && call == GeminiService.Call(None, Failure(GeminiService.FailureMessage))
            && Render(GenerateSettle(s, call.result)) == ErrorPanel(GeminiService.FailureMessage)
  {
    assert "data:" + file.contentType + ";base64," + payload == "data:image/svg+xml;base64," + payload;
    GeminiService.SvgDataUrlRejected(payload);
  }

  /** A PNG data URL as `readAsDataURL` produces it parses into the PNG type
      and its payload. */
  lemma PngUploadParses(encoded: string)
    requires GeminiService.IsLine(encoded)
    ensures GeminiService.FileToGenerativePart(PngPrefix + encoded)
            == Success(GeminiService.InlineData("image/png", encoded))
  {
    assert PngPrefix + encoded == GeminiService.DataUrl("png", encoded);
    assert GeminiService.ImageType + "png" == "image/png";
    GeminiService.ParseDataUrl("png", encoded);
  }

  /** The end-to-end run: a PNG upload, a press, and a model answer holding a
      text part and then one inline image display that image as
      `data:image/png;base64,<payload>` and no error, after sending the
      uploaded type and payload to the model. */
  lemma PngEndToEnd(file: File, encoded: string, payload: string, service: GeminiService.InlineData -> GeminiService.Upstream)
    requires GeminiService.IsLine(encoded)
    requires service(GeminiService.InlineData("image/png", encoded))
             == GeminiService.Responded(GeminiService.Response(Some([GeminiService.Candidate(Some(GeminiService.Content(Some([
                  GeminiService.Part(Some("walk cycle"), None),
                  GeminiService.Part(None, Some(GeminiService.InlineData("image/png", payload)))]))))])))
    ensures var s := ReadSucceeded(Initial, file, PngPrefix + encoded);
            var call := GeminiService.Generation(PressLaunch(s).imageBase64, service);
            && call == GeminiService.Call(Some(GeminiService.InlineData("image/png", encoded)), Success(payload))
            && Render(GenerateSettle(PressGenerate(s), call.result)) == SheetDisplay(PngPrefix + payload)
            && GenerateSettle(PressGenerate(s), call.result).error.None?
  {
    var part := GeminiService.InlineData("image/png", encoded);
    PngUploadParses(encoded);
    var parts := GeminiService.ResponseParts(service(part).response);
    assert parts == [parts[0]] + [parts[1]] + [];
    GeminiService.FirstImageWins([parts[0]], parts[1], []);
    assert |PngPrefix + payload| >= |PngPrefix|;
  }

  /** The example run with the payload "ABC123". */
  lemma Abc123EndToEnd(file: File, encoded: string, service: GeminiService.InlineData -> GeminiService.Upstream)
    requires GeminiService.IsLine(encoded)
    requires service(GeminiService.InlineData("image/png", encoded))
             == GeminiService.Responded(GeminiService.Response(Some([GeminiService.Candidate(Some(GeminiService.Content(Some([
                  GeminiService.Part(Some("walk cycle"), None),
                  GeminiService.Part(None, Some(GeminiService.InlineData("image/png", "ABC123")))]))))])))
    ensures var s := ReadSucceeded(Initial, file, PngPrefix + encoded);
            var call := GeminiService.Generation(PressLaunch(s).imageBase64, service);
            Render(GenerateSettle(PressGenerate(s), call.result)) == SheetDisplay("data:image/png;base64,ABC123")
  {
    PngEndToEnd(file, encoded, "ABC123", service);
  }

  // ---------------------------------------------------------------------------
  // The component

  /** The `App` component's four state cells. */
  class AppComponent {
    var uploadedImage: Option<UploadedImage>
    var generatedSpriteSheet: Option<string>
    var isLoading: bool
    var error: Option<string>

    function Snapshot(): State
      reads this
    {
      State(uploadedImage, generatedSpriteSheet, isLoading, error)
    }

    /** What the cells keep with the read failure as written; a stored
        upload may lack its data after a failed read. */
    ghost predicate Valid()
      reads this
    {
      DisplayInvariant(Snapshot())
    }

    constructor ()
      ensures Valid() && Snapshot() == Initial
    {
      uploadedImage, generatedSpriteSheet, isLoading, error := None, None, false, None;
    }

    /** `reader.onloadend` with `reader.result`, which is `None` after a
        failed read. */
    method ImageRead(file: File, result: Option<string>)
      requires Valid()
      modifies this
      ensures Valid() && Snapshot() == OnLoadEnd(old(Snapshot()), file, result)
      ensures UploadHasData(Snapshot()) <==> result.Some?
    {
      uploadedImage := Some(UploadedImage(file, result));
      generatedSpriteSheet := None;
      error := None;
    }

    /** `reader.onerror` alone, which is also the corrected read failure. */
    method ImageReadFailed()
      requires Valid()
      modifies this
      ensures Valid() && Snapshot() == OnReadError(old(Snapshot()))
      ensures Snapshot() == ReadFailed(old(Snapshot()))
    {
      error := Some(ReadErrorMessage);
    }

    /** A failed read as App.tsx:15-26 is written: `onerror`, then
        `onloadend` with a `null` result. */
    method ReadFailsAsWritten(file: File)
      requires Valid()
      modifies this
      ensures Valid() && Snapshot() == ReadFailedAsWritten(old(Snapshot()), file)
      ensures !UploadHasData(Snapshot()) && error.None?
    {
      ImageReadFailed();
      ImageRead(file, None);
    }

    /** `handleGenerate` up to its `await`; `launch` is the call it starts. */
    method HandleGenerate() returns (launch: Launch)
      requires Valid()
      modifies this
      ensures Valid() && Snapshot() == GenerateStart(old(Snapshot()))
      ensures launch == LaunchOf(old(Snapshot()))
    {
      if uploadedImage.None? {
        error := Some(UploadFirstMessage);
        return NotLaunched;
      }
      launch := Launched(uploadedImage.value.base64);
      isLoading := true;
      error := None;
      generatedSpriteSheet := None;
    }

    /** `handleGenerate` after its `await`: the result or the error, then
        the `finally` reset. */
    method GenerationSettled(outcome: Result<string, string>)
      requires Valid()
      modifies this
      ensures Valid() && Snapshot() == GenerateSettle(old(Snapshot()), outcome)
    {
      match outcome {
        case Success(payload) =>
          generatedSpriteSheet := Some(PngPrefix + payload);
        case Failure(message) =>
          error := Some(message);
      }
      isLoading := false;
    }
  }

  /** The generate flow driven through the component: press, call the
      client, settle. */
  method GenerateThroughComponent(app: AppComponent, service: GeminiService.InlineData -> GeminiService.Upstream)
    requires app.Valid() && !GenerateDisabled(app.Snapshot())
    modifies app
    ensures app.Valid() && !app.isLoading
    ensures app.error.Some? ==> app.error == Some(GeminiService.FailureMessage)
    ensures app.uploadedImage == old(app.uploadedImage)
    ensures app.Snapshot() == GenerateSettle(GenerateStart(old(app.Snapshot())),
      GeminiService.Generation(LaunchOf(old(app.Snapshot())).imageBase64, service).result)
  {
    var launch := app.HandleGenerate();
    var request, result := GeminiService.GenerateSpriteSheet(launch.imageBase64, service);
    app.GenerationSettled(result);
  }
}
