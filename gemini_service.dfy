/** The generation client (services/geminiService.ts): the data-URL parser
    `fileToGenerativePart`, and `generateSpriteSheet`, which sends the parsed
    image to the image model, picks the first inline image of the answer and
    folds every failure into one generic message. The model call itself is a
    parameter `service`: what the SDK answers for a given image part. */
module GeminiService {
  import opened Wrappers
  import opened Text

  const InvalidImageMessage: string := "Invalid base64 image string"
  const NoImageMessage: string := "No image was generated in the API response."
  const FailureMessage: string := "Failed to generate sprite sheet. Please check the console for details."
  /** What `null.match(...)` throws when the argument is `null` (V8's wording). */
  const NullArgumentMessage: string := "Cannot read properties of null (reading 'match')"

  /** The literal pieces of `/^data:(image\/\w+);base64,(.*)$/`. */
  const Scheme: string := "data:"
  const ImageType: string := "image/"
  const Base64Marker: string := ";base64,"

  /** `\w`: an ASCII letter, digit or underscore. */
  predicate IsWordChar(c: char) {
    'a' <= c <= 'z' || 'A' <= c <= 'Z' || '0' <= c <= '9' || c == '_'
  }

  predicate IsWord(s: string) {
    forall i :: 0 <= i < |s| ==> IsWordChar(s[i])
  }

  /** The characters that `.` does not match in a JavaScript regular expression. */
  predicate IsLineTerminator(c: char) {
    c == '\n' || c == '\r' || c == '\U{2028}' || c == '\U{2029}'
  }

  /** A string that `.*` matches as a whole. */
  predicate IsLine(s: string) {
    forall i :: 0 <= i < |s| ==> !IsLineTerminator(s[i])
  }

  /** The `{ mimeType, data }` pair of the SDK, in requests and responses alike. */
  datatype InlineData = InlineData(mimeType: string, data: string)

  /** The data URL `data:image/<subtype>;base64,<payload>`. */
  function DataUrl(subtype: string, payload: string): string {
    Scheme + ImageType + subtype + Base64Marker + payload
  }

  /** The strings the regular expression matches: `image/` and one or more word
      characters as the MIME type, nothing between it and `;base64,`, and a
      payload without line terminators up to the end of the string. */
  ghost predicate WellFormedDataUrl(s: string) {
    exists subtype, payload ::
      IsWord(subtype) && subtype != [] && IsLine(payload) && s == DataUrl(subtype, payload)
  }

  /** Length of the longest run of word characters at the start of `s`
      (what the greedy `\w+` consumes). */
  function WordRun(s: string): (n: nat)
    ensures n <= |s|
    ensures IsWord(s[..n])
    ensures n < |s| ==> !IsWordChar(s[n])
  {
    if s == [] || !IsWordChar(s[0]) then 0
    else
      var m := WordRun(s[1..]);
      assert s[..m + 1] == [s[0]] + s[1..][..m];
      m + 1
  }

  /** `fileToGenerativePart` (services/geminiService.ts:13-27). Every accepted
      string is `data:` + the MIME type + `;base64,` + the data, with an
      `image/` MIME type whose subtype is made of word characters only. */
  function FileToGenerativePart(base64: string): (r: Result<InlineData, string>)
    ensures r.Failure? ==> r.error == InvalidImageMessage
    ensures r.Success? ==>
      && StartsWith(r.value.mimeType, ImageType)
      && |r.value.mimeType| > |ImageType|
      && IsWord(r.value.mimeType[|ImageType|..])
      && IsLine(r.value.data)
      && base64 == Scheme + r.value.mimeType + Base64Marker + r.value.data
  {
    var head := Scheme + ImageType;
    if !StartsWith(base64, head) then Failure(InvalidImageMessage)
    else
      var rest := base64[|head|..];
      var n := WordRun(rest);
      var tail := rest[n..];
      if n == 0 || !StartsWith(tail, Base64Marker) then Failure(InvalidImageMessage)
      else
        var payload := tail[|Base64Marker|..];
        if !IsLine(payload) then Failure(InvalidImageMessage)
        else
          var mimeType := ImageType + rest[..n];
          assert mimeType[|ImageType|..] == rest[..n];
          assert tail == Base64Marker + payload;
          assert rest == rest[..n] + tail;
          assert base64 == head + rest;
          Success(InlineData(mimeType, payload))
  }

  lemma {:induction false} WordRunOfWord(w: string, tail: string)
    requires IsWord(w)
    requires tail == [] || !IsWordChar(tail[0])
    ensures WordRun(w + tail) == |w|
  {
    if w == [] {
      assert w + tail == tail;
    } else {
      assert (w + tail)[1..] == w[1..] + tail;
      WordRunOfWord(w[1..], tail);
    }
  }

  /** Round trip: a data URL built from a word subtype and a one-line payload
      parses back into exactly that MIME type and payload. */
  lemma ParseDataUrl(subtype: string, payload: string)
    requires IsWord(subtype) && subtype != []
    requires IsLine(payload)
    ensures FileToGenerativePart(DataUrl(subtype, payload))
            == Success(InlineData(ImageType + subtype, payload))
  {
    var s := DataUrl(subtype, payload);
    var head := Scheme + ImageType;
    assert s == head + (subtype + (Base64Marker + payload));
    assert s[|head|..] == subtype + (Base64Marker + payload);
    WordRunOfWord(subtype, Base64Marker + payload);
  }

  /** The parser accepts exactly the strings the regular expression matches. */
  lemma ParseSucceedsIff(s: string)
    ensures FileToGenerativePart(s).Success? <==> WellFormedDataUrl(s)
  {
    var r := FileToGenerativePart(s);
    if r.Success? {
      var subtype := r.value.mimeType[|ImageType|..];
      assert r.value.mimeType == ImageType + subtype;
      assert s == DataUrl(subtype, r.value.data);
    }
    if WellFormedDataUrl(s) {
      var subtype, payload :|
        IsWord(subtype) && subtype != [] && IsLine(payload) && s == DataUrl(subtype, payload);
      ParseDataUrl(subtype, payload);
    }
  }

  /** A subtype holding a character outside `\w` (`+`, `-`, `.`, ...) is
      rejected, whatever follows. */
  lemma NonWordSubtypeRejected(w: string, c: char, rest: string)
    requires IsWord(w)
    requires !IsWordChar(c) && c != ';'
    ensures FileToGenerativePart(Scheme + ImageType + w + [c] + rest).Failure?
  {
    var s := Scheme + ImageType + w + [c] + rest;
    var head := Scheme + ImageType;
    assert s == head + (w + ([c] + rest));
    assert s[|head|..] == w + ([c] + rest);
    WordRunOfWord(w, [c] + rest);
    assert (w + ([c] + rest))[|w|..] == [c] + rest;
  }

  /** A media-type parameter before `;base64` (`;charset=utf-8`, ...) makes the
      string unacceptable: the regular expression allows none. */
  lemma ParameterRejected(w: string, attribute: string, value: string, payload: string)
    requires IsWord(w)
    requires ',' !in attribute
    ensures FileToGenerativePart(
              Scheme + ImageType + w + ";" + attribute + "=" + value + Base64Marker + payload).Failure?
  {
    var after := ";" + (attribute + ("=" + (value + (Base64Marker + payload))));
    var s := Scheme + ImageType + w + ";" + attribute + "=" + value + Base64Marker + payload;
    var head := Scheme + ImageType;
    assert s == head + (w + after);
    assert s[|head|..] == w + after;
    WordRunOfWord(w, after);
    assert (w + after)[|w|..] == after;
    ParameterIsNotMarker(attribute, value + (Base64Marker + payload));
  }

  /** `;attribute=...` never starts with `;base64,` when the attribute holds
      no comma: either `=` comes where the marker has a letter or digit, or
      the seventh character of the attribute stands where the marker has its comma. */
  lemma ParameterIsNotMarker(attribute: string, rest: string)
    requires ',' !in attribute
    ensures !StartsWith(";" + (attribute + ("=" + rest)), Base64Marker)
  {
    var after := ";" + (attribute + ("=" + rest));
    if |attribute| < 7 {
      assert after[|attribute| + 1] == '=';
    } else {
      assert after[7] == attribute[6];
    }
  }

  /** The SVG type that the uploader lets through is one the parser refuses. */
  lemma SvgDataUrlRejected(payload: string)
    ensures FileToGenerativePart("data:image/svg+xml;base64," + payload).Failure?
  {
    assert "data:image/svg+xml;base64," + payload == Scheme + ImageType + "svg" + ['+'] + ("xml;base64," + payload);
    NonWordSubtypeRejected("svg", '+', "xml;base64," + payload);
  }

  // ---------------------------------------------------------------------------
  // The response of the image model, with every `?.` link optional.

  datatype Part = Part(text: Option<string>, inlineData: Option<InlineData>)
  datatype Content = Content(parts: Option<seq<Part>>)
  datatype Candidate = Candidate(content: Option<Content>)
  datatype Response = Response(candidates: Option<seq<Candidate>>)

  /** What the awaited SDK call gives: a response, or a thrown fault
      (network, authentication, quota, refusal) with its detail. */
  datatype Upstream = Responded(response: Response) | Faulted(detail: string)

  /** `response.candidates?.[0]?.content?.parts || []`: only the first
      candidate is looked at, and every missing link yields no parts. */
  function ResponseParts(response: Response): (parts: seq<Part>)
    ensures parts != [] ==>
      && response.candidates.Some? && response.candidates.value != []
      && response.candidates.value[0].content.Some?
      && response.candidates.value[0].content.value.parts == Some(parts)
    ensures
      && response.candidates.Some? && response.candidates.value != []
      && response.candidates.value[0].content.Some?
      && response.candidates.value[0].content.value.parts.Some?
      ==> parts == response.candidates.value[0].content.value.parts.value
  {
    match response.candidates
    case None => []
    case Some(candidates) =>
      if candidates == [] then []
      else
        match candidates[0].content
        case None => []
        case Some(content) =>
          match content.parts
          case None => []
          case Some(parts) => parts
  }

  /** Index of the first part that carries inline data, if any. */
  function FirstImagePart(parts: seq<Part>): (k: Option<nat>)
    ensures k.Some? ==>
      && k.value < |parts|
      && parts[k.value].inlineData.Some?
      && forall j :: 0 <= j < k.value ==> parts[j].inlineData.None?
    ensures k.None? ==> forall j :: 0 <= j < |parts| ==> parts[j].inlineData.None?
  {
    if parts == [] then None
    else if parts[0].inlineData.Some? then Some(0)
    else
      match FirstImagePart(parts[1..])
      case None => None
      case Some(i) => Some(i + 1)
  }

  /** The `data` of the first part that carries inline data. */
  function ImageData(parts: seq<Part>): (data: Option<string>)
    ensures data.None? <==> forall j :: 0 <= j < |parts| ==> parts[j].inlineData.None?
    ensures data.Some? ==>
      exists k :: && 0 <= k < |parts| && parts[k].inlineData.Some?
                  && data.value == parts[k].inlineData.value.data
                  && forall j :: 0 <= j < k ==> parts[j].inlineData.None?
  {
    match FirstImagePart(parts)
    case None => None
    case Some(k) => Some(parts[k].inlineData.value.data)
  }

  /** The `for…of` loop of services/geminiService.ts:48-52: return the data of
      the first part with `inlineData`. */
  method SelectImageData(parts: seq<Part>) returns (data: Option<string>)
    ensures data == ImageData(parts)
    ensures data.None? <==> forall j :: 0 <= j < |parts| ==> parts[j].inlineData.None?
  {
    for i := 0 to |parts|
      invariant forall j :: 0 <= j < i ==> parts[j].inlineData.None?
    {
      if parts[i].inlineData.Some? {
        return Some(parts[i].inlineData.value.data);
      }
    }
    return None;
  }

  /** Earlier parts without an image are skipped and later image parts are
      ignored. */
  lemma FirstImageWins(before: seq<Part>, image: Part, after: seq<Part>)
    requires forall j :: 0 <= j < |before| ==> before[j].inlineData.None?
    requires image.inlineData.Some?
    ensures ImageData(before + [image] + after) == Some(image.inlineData.value.data)
  {
    var parts := before + [image] + after;
    assert parts[|before|] == image;
    assert forall j :: 0 <= j < |before| ==> parts[j] == before[j];
  }

  /** Only the first candidate is examined: later candidates change nothing. */
  lemma OnlyFirstCandidate(first: Candidate, others: seq<Candidate>)
    ensures ResponseParts(Response(Some([first] + others))) == ResponseParts(Response(Some([first])))
  {
  }

  // ---------------------------------------------------------------------------
  // generateSpriteSheet

  /** One call of `generateSpriteSheet`: the image part handed to the model
      (`None` when the model was never called) and the returned data or the
      message of the thrown error. */
  datatype Call = Call(request: Option<InlineData>, result: Result<string, string>)

  /** The body of the `try` block (services/geminiService.ts:31-54): what it
      returns or the specific error it throws. `None` stands for a `null`
      argument, on which the first line throws a TypeError. */
  function Attempt(imageBase64: Option<string>, service: InlineData -> Upstream): (c: Call)
    ensures c.request.Some? <==> imageBase64.Some? && FileToGenerativePart(imageBase64.value).Success?
    ensures c.request.Some? ==> c.request.value == FileToGenerativePart(imageBase64.value).value
    ensures c.request.None? ==> c.result.Failure? && c.result.error in {NullArgumentMessage, InvalidImageMessage}
    ensures c.result.Success? ==>
      && c.request.Some? && service(c.request.value).Responded?
      && ImageData(ResponseParts(service(c.request.value).response)) == Some(c.result.value)
    ensures c.request.Some? && service(c.request.value).Faulted? ==>
      c.result == Failure(service(c.request.value).detail)
    ensures c.request.Some? && service(c.request.value).Responded? ==>
      match ImageData(ResponseParts(service(c.request.value).response))
      case None => c.result == Failure(NoImageMessage)
      case Some(data) => c.result == Success(data)
  {
    match imageBase64
    case None => Call(None, Failure(NullArgumentMessage))
    case Some(s) =>
      match FileToGenerativePart(s)
      case Failure(e) => Call(None, Failure(e))
      case Success(part) =>
        match service(part)
        case Faulted(detail) => Call(Some(part), Failure(detail))
        case Responded(response) =>
          match ImageData(ResponseParts(response))
          case None => Call(Some(part), Failure(NoImageMessage))
          case Some(data) => Call(Some(part), Success(data))
  }

  /** `generateSpriteSheet` (services/geminiService.ts:29-60): the `catch`
      replaces whatever was thrown by one generic error. */
  function Generation(imageBase64: Option<string>, service: InlineData -> Upstream): (c: Call)
    ensures c.result.Failure? ==> c.result.error == FailureMessage
  {
    var attempt := Attempt(imageBase64, service);
    match attempt.result
    case Success(_) => attempt
    case Failure(_) => Call(attempt.request, Failure(FailureMessage))
  }

  /** The imperative shape of `generateSpriteSheet`: parse, call, scan the
      parts, and rewrite any failure. */
  method GenerateSpriteSheet(imageBase64: Option<string>, service: InlineData -> Upstream)
    returns (request: Option<InlineData>, result: Result<string, string>)
    ensures Call(request, result) == Generation(imageBase64, service)
  {
    request := None;
    // `thrown` is the specific error the `catch` logs and then discards.
    var thrown: Option<string> := None;
    if imageBase64.None? {
      thrown := Some(NullArgumentMessage);
    } else {
      var part := FileToGenerativePart(imageBase64.value);
      if part.Failure? {
        thrown := Some(part.error);
      } else {
        request := Some(part.value);
        var upstream := service(part.value);
        if upstream.Faulted? {
          thrown := Some(upstream.detail);
        } else {
          var data := SelectImageData(ResponseParts(upstream.response));
          if data.Some? {
            return request, Success(data.value);
          }
          thrown := Some(NoImageMessage);
        }
      }
    }
    result := Failure(FailureMessage);
  }

  /** Every failure of the `try` body, and only those, reaches the caller,
      and always as the generic message; a success passes unchanged. */
  lemma EveryFailureIsGeneric(imageBase64: Option<string>, service: InlineData -> Upstream)
    ensures Generation(imageBase64, service).request == Attempt(imageBase64, service).request
    ensures Generation(imageBase64, service).result.Failure? <==> Attempt(imageBase64, service).result.Failure?
    ensures Attempt(imageBase64, service).result.Success? ==>
              Generation(imageBase64, service).result == Attempt(imageBase64, service).result
    ensures Generation(imageBase64, service).result.Failure? ==>
              Generation(imageBase64, service).result == Failure(FailureMessage)
  {
  }

  /** The parser runs before the request: a malformed input never reaches the
      model, and the caller sees only the generic failure. */
  lemma MalformedInputNeverCallsService(s: string, service: InlineData -> Upstream)
    requires !WellFormedDataUrl(s)
    ensures Generation(Some(s), service) == Call(None, Failure(FailureMessage))
  {
    ParseSucceedsIff(s);
  }

  /** A request is sent exactly when the input parses, and it carries the
      parsed MIME type and payload. */
  lemma RequestIsParsedImage(s: string, service: InlineData -> Upstream)
    ensures Generation(Some(s), service).request.Some? <==> WellFormedDataUrl(s)
    ensures Generation(Some(s), service).request.Some? ==>
              Generation(Some(s), service).request == Some(FileToGenerativePart(s).value)
  {
    ParseSucceedsIff(s);
  }

  /** A response without any inline image (no candidate, no content, no or
      empty parts, only text parts) is a failure, never an empty success. */
  lemma NoImageIsFailure(s: string, service: InlineData -> Upstream)
    requires FileToGenerativePart(s).Success?
    requires service(FileToGenerativePart(s).value).Responded?
    requires var parts := ResponseParts(service(FileToGenerativePart(s).value).response);
             forall j :: 0 <= j < |parts| ==> parts[j].inlineData.None?
    ensures Generation(Some(s), service) == Call(Some(FileToGenerativePart(s).value), Failure(FailureMessage))
  {
  }

  /** A call succeeds exactly when the input parses, the model answers, and
      the first candidate holds an image; its value is that image's data. */
  lemma GenerationSucceedsIff(s: string, service: InlineData -> Upstream)
    ensures Generation(Some(s), service).result.Success? ==> WellFormedDataUrl(s)
    ensures Generation(Some(s), service).result.Success? <==>
      && FileToGenerativePart(s).Success?
      && service(FileToGenerativePart(s).value).Responded?
      && ImageData(ResponseParts(service(FileToGenerativePart(s).value).response)).Some?
    ensures Generation(Some(s), service).result.Success? ==>
      Generation(Some(s), service).result.value
        == ImageData(ResponseParts(service(FileToGenerativePart(s).value).response)).value
  {
    ParseSucceedsIff(s);
  }
}
