/** `processHandwriting`: the gate on the upload's media type, the single
    request to the transcription model, and the validation of its JSON
    answer, with every failure after the request collapsed into one message.

    The SDK call and `JSON.parse` are parameters (`generate` and `jsonParse`):
    the model fixes what the service does with their answers, not the
    answers themselves. The prompt, the response schema and the API key
    check are configuration and are not modelled. */
module GeminiService {
  import opened Wrappers
  import Text
  import FileUtils

  /** An uploaded file: its declared media type, and what reading it as a
      data URL gives. */
  datatype ImageFile = ImageFile(mimeType: string, read: FileUtils.ReadOutcome)

  /** The inline image part sent to the model. */
  datatype Request = Request(data: string, mimeType: string)

  /** What the SDK call gives: a rejection, or a response whose `text` may
      be undefined. */
  datatype SdkReply = Rejected(reason: Thrown) | Replied(text: Option<string>)

  /** A parsed JSON value. */
  datatype Json =
    | JNull
    | JBool(b: bool)
    | JNumber(n: real)
    | JString(s: string)
    | JArray(items: seq<Json>)
    | JObject(members: map<string, Json>)

  /** The validated answer: `isTable` and `textContent` are checked,
      `tableData` is whatever the object held under that key, if anything. */
  datatype GeminiResponse = GeminiResponse(isTable: bool, textContent: string, tableData: Option<Json>)

  const InvalidFileTypeMessage: string := "Invalid file type. Please upload an image."
  const ShapeMessage: string := "Invalid JSON structure received from API."
  const NoValidResponseMessage: string := "Could not get a valid response from the AI model."

  /** Why the body of the `try` failed: the call rejected, the response had
      no text (`trim` of undefined), `JSON.parse` threw, the parsed value was
      `null` (reading a property of it throws), or the shape check threw
      ShapeMessage. */
  datatype TryFailure = CallRejected(reason: Thrown) | TextMissing | ParseRejected | NullParsed | ShapeRejected

  /** Property access on a parsed value other than `null`: the member of an
      object, or undefined (None). */
  function Member(j: Json, key: string): (r: Option<Json>)
    ensures r.Some? <==> j.JObject? && key in j.members
    ensures r.Some? ==> r.value == j.members[key]
  {
    if j.JObject? && key in j.members then Some(j.members[key]) else None
  }

  /** The shape check: `isTable` must be a boolean and `textContent` a
      string; `tableData` is not looked at. */
  function ShapeCheck(parsed: Json): (r: Result<GeminiResponse, TryFailure>)
    ensures parsed.JNull? ==> r == Err(NullParsed)
    ensures !parsed.JNull? ==>
      (r.Ok? <==> (Member(parsed, "isTable").Some? && Member(parsed, "isTable").value.JBool?
                   && Member(parsed, "textContent").Some? && Member(parsed, "textContent").value.JString?))
    ensures !parsed.JNull? && r.Err? ==> r.error == ShapeRejected
    ensures r.Ok? ==> && parsed.members["isTable"] == JBool(r.value.isTable)
                      && parsed.members["textContent"] == JString(r.value.textContent)
                      && r.value.tableData == Member(parsed, "tableData")
  {
    if parsed.JNull? then Err(NullParsed)
    else
      match (Member(parsed, "isTable"), Member(parsed, "textContent"))
      case (Some(JBool(isTable)), Some(JString(textContent))) =>
        Ok(GeminiResponse(isTable, textContent, Member(parsed, "tableData")))
      case _ => Err(ShapeRejected)
  }

  /** The body of the `try`: the response text, trimmed, is parsed and the
      parsed value shape-checked. */
  function TryBody(reply: SdkReply, jsonParse: string -> Option<Json>): (r: Result<GeminiResponse, TryFailure>)
    ensures reply.Rejected? ==> r == Err(CallRejected(reply.reason))
    ensures reply == Replied(None) ==> r == Err(TextMissing)
    ensures reply.Replied? && reply.text.Some? && jsonParse(Text.Trim(reply.text.value)).None? ==>
      r == Err(ParseRejected)
    ensures reply.Replied? && reply.text.Some? && jsonParse(Text.Trim(reply.text.value)).Some? ==>
      r == ShapeCheck(jsonParse(Text.Trim(reply.text.value)).value)
    ensures r.Ok? ==> reply.Replied? && reply.text.Some?
                      && jsonParse(Text.Trim(reply.text.value)).Some?
                      && ShapeCheck(jsonParse(Text.Trim(reply.text.value)).value) == r
  {
    match reply
    case Rejected(reason) => Err(CallRejected(reason))
    case Replied(None) => Err(TextMissing)
    case Replied(Some(text)) =>
      match jsonParse(Text.Trim(text))
      case None => Err(ParseRejected)
      case Some(parsed) => ShapeCheck(parsed)
  }

  /** The outcome of `processHandwriting`, with the requests it sent. */
  datatype Processed = Processed(outcome: Result<GeminiResponse, Thrown>, requests: seq<Request>)

  /** `processHandwriting(imageFile)`. A media type that does not start with
      `image/` is refused before the file is read or the model called; a
      failed read passes its rejection on unchanged (it happens outside the
      `try`); otherwise exactly one request goes out, carrying the payload
      and the file's own media type, and any failure after it becomes
      NoValidResponseMessage. */
  function ProcessHandwriting(file: ImageFile, generate: Request -> SdkReply, jsonParse: string -> Option<Json>)
    : (p: Processed)
    ensures |p.requests| <= 1
    ensures !Text.StartsWith(file.mimeType, "image/") ==> p == Processed(Err(Error(InvalidFileTypeMessage)), [])
    ensures Text.StartsWith(file.mimeType, "image/") && FileUtils.FileToBase64(file.read).Err? ==>
      p == Processed(Err(FileUtils.FileToBase64(file.read).error), [])
    ensures p.requests != [] <==> Text.StartsWith(file.mimeType, "image/") && FileUtils.FileToBase64(file.read).Ok?
    ensures p.requests != [] ==> p.requests[0] == Request(FileUtils.FileToBase64(file.read).value, file.mimeType)
    ensures p.requests != [] && p.outcome.Err? ==> p.outcome.error == Error(NoValidResponseMessage)
    ensures p.requests != [] ==> (p.outcome.Ok? <==> TryBody(generate(p.requests[0]), jsonParse).Ok?)
    ensures p.outcome.Ok? ==> p.requests != [] && p.outcome.value == TryBody(generate(p.requests[0]), jsonParse).value
  {
    if !Text.StartsWith(file.mimeType, "image/") then
      Processed(Err(Error(InvalidFileTypeMessage)), [])
    else
      match FileUtils.FileToBase64(file.read)
      case Err(e) => Processed(Err(e), [])
      case Ok(base64Data) =>
        var request := Request(base64Data, file.mimeType);
        match TryBody(generate(request), jsonParse)
        case Ok(response) => Processed(Ok(response), [request])
        case Err(_) => Processed(Err(Error(NoValidResponseMessage)), [request])
  }

  /** Every message the service can fail with: the gate's, the reader's,
      the collapsed one, or a non-Error rejection of the reader. */
  predicate SurfacedFailure(t: Thrown)
  {
    || t == Error(InvalidFileTypeMessage) || t == Error(FileUtils.EmptyBase64Message)
    || t == Error(NoValidResponseMessage) || t == NonError
  }

  /** The shape check's message is none of the four. */
  lemma ShapeMessageIsDistinct()
    ensures ShapeMessage != InvalidFileTypeMessage
    ensures ShapeMessage != FileUtils.EmptyBase64Message
    ensures ShapeMessage != NoValidResponseMessage
  {
    assert |ShapeMessage| == 41;
    assert |InvalidFileTypeMessage| == 42;
    assert |FileUtils.EmptyBase64Message| == 50;
    assert |NoValidResponseMessage| == 49;
  }

  /** The caller sees one of four failures, and never the shape check's
      message, nor the reason of an SDK rejection. */
  lemma FailuresAreCollapsed(file: ImageFile, generate: Request -> SdkReply, jsonParse: string -> Option<Json>)
    ensures var p := ProcessHandwriting(file, generate, jsonParse);
      p.outcome.Err? ==> SurfacedFailure(p.outcome.error) && p.outcome.error != Error(ShapeMessage)
  {
    ShapeMessageIsDistinct();
  }

  /** A result handed back always came from the one response, whose text,
      once trimmed, parsed to an object with a boolean `isTable` and a string
      `textContent`, which the result carries. */
  lemma ResultIsValidated(file: ImageFile, generate: Request -> SdkReply, jsonParse: string -> Option<Json>)
    ensures var p := ProcessHandwriting(file, generate, jsonParse);
      p.outcome.Ok? ==>
        && |p.requests| == 1 && Text.StartsWith(file.mimeType, "image/")
        && generate(p.requests[0]).Replied? && generate(p.requests[0]).text.Some?
        && var parsed := jsonParse(Text.Trim(generate(p.requests[0]).text.value));
           && parsed.Some? && parsed.value.JObject?
           && parsed.value.members["isTable"] == JBool(p.outcome.value.isTable)
           && parsed.value.members["textContent"] == JString(p.outcome.value.textContent)
  {
  }

  /** A valid answer is handed back: for an image whose read succeeds, when
      the one request's reply has a text that, trimmed, parses to a value
      passing the shape check, the service returns exactly that value. */
  lemma ValidReplyIsReturned(file: ImageFile, generate: Request -> SdkReply, jsonParse: string -> Option<Json>, parsed: Json)
    requires Text.StartsWith(file.mimeType, "image/") && FileUtils.FileToBase64(file.read).Ok?
    requires var reply := generate(Request(FileUtils.FileToBase64(file.read).value, file.mimeType));
      reply.Replied? && reply.text.Some? && jsonParse(Text.Trim(reply.text.value)) == Some(parsed)
    requires ShapeCheck(parsed).Ok?
    ensures ProcessHandwriting(file, generate, jsonParse)
         == Processed(Ok(ShapeCheck(parsed).value), [Request(FileUtils.FileToBase64(file.read).value, file.mimeType)])
  {
  }

  /** Whitespace around the response text makes no difference: two replies
      whose texts trim to the same string give the same outcome. */
  lemma SurroundingWhitespaceIgnored(text1: string, text2: string, jsonParse: string -> Option<Json>)
    requires Text.Trim(text1) == Text.Trim(text2)
    ensures TryBody(Replied(Some(text1)), jsonParse) == TryBody(Replied(Some(text2)), jsonParse)
  {
  }

  /** `tableData` is not checked: an object with only `isTable: true` and a
      `textContent` is accepted, with no table. */
  lemma TableDataMayBeAbsent(text: string)
    ensures ShapeCheck(JObject(map["isTable" := JBool(true), "textContent" := JString(text)]))
         == Ok(GeminiResponse(true, text, None))
  {
    var m := map["isTable" := JBool(true), "textContent" := JString(text)];
    assert "tableData" !in m by {
      assert "tableData" != "isTable" by { assert "tableData"[0] != "isTable"[0]; }
      assert "tableData" != "textContent" by { assert "tableData"[1] != "textContent"[1]; }
    }
  }

  /** A file declared as `application/pdf` is refused with the gate's
      message and nothing is sent. */
  lemma NonImageIsRefused(read: FileUtils.ReadOutcome, generate: Request -> SdkReply, jsonParse: string -> Option<Json>)
    ensures ProcessHandwriting(ImageFile("application/pdf", read), generate, jsonParse)
         == Processed(Err(Error(InvalidFileTypeMessage)), [])
  {
    assert !Text.StartsWith("application/pdf", "image/") by {
      assert "application/pdf"[0] != "image/"[0];
    }
  }
}
