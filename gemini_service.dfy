/** The pure part of `generateSceneImage` in services/geminiService.ts: choosing
    the prompt, building the text sent to the image model, extracting the image
    from the response, and re-wrapping every error. The two model calls are
    oracle inputs. */
module GeminiService {
  import opened Wrappers
  import opened JsText

  const StyleSuffix: string :=
    ". Whimsical, consistent character design, realistic scale, soft edges, no text in image, no violence."
  const DataUriPrefix: string := "data:image/png;base64,"
  const SafetyFilterMessage: string := "模型未返回内容，可能触发了内容安全过滤。"
  const NoImageDataMessage: string := "未能在响应中找到图像数据。"
  const DefaultImageError: string := "图像生成失败"

  /** `{ mimeType?, data? }` carried by a part's `inlineData`. */
  datatype Blob = Blob(mimeType: Option<string>, data: Option<string>)
  datatype Part = Part(text: Option<string>, inlineData: Option<Blob>)
  datatype Content = Content(parts: Option<seq<Part>>)
  datatype Candidate = Candidate(content: Option<Content>)
  datatype ImageResponse = ImageResponse(candidates: Option<seq<Candidate>>)

  /** The outcomes of the two model calls made for one scene: the translation
      call's `text` (absent or present), and the image model's answer to the
      request text it is sent. `Failure(m)` is a thrown error with message `m`
      (an absent message is the empty string). */
  datatype ImageCall = ImageCall(
    translation: Result<Option<string>, string>,
    respond: string -> Result<ImageResponse, string>)

  /** `translationResponse.text?.trim() || chinesePrompt`: the trimmed translation
      unless it is absent or trims to nothing, in which case the original. */
  function ChoosePrompt(translation: Option<string>, original: string): (r: string)
    ensures translation.Some? && Trim(translation.value) != [] ==> r == Trim(translation.value)
    ensures translation.None? || AllWhitespace(translation.value) ==> r == original
    ensures r != original ==> r != [] && !IsWhitespace(r[0]) && !IsWhitespace(r[|r| - 1])
  {
    TrimEmptyIff(if translation.Some? then translation.value else "");
    if translation.Some? && Trim(translation.value) != [] then Trim(translation.value) else original
  }

  /** The text part of the image request: it always ends with the style suffix,
      and removing the suffix gives back the chosen prompt. */
  function RequestText(prompt: string): (r: string)
    ensures |r| == |prompt| + |StyleSuffix|
    ensures r[..|prompt|] == prompt && r[|prompt|..] == StyleSuffix
  {
    prompt + StyleSuffix
  }

  /** `response.candidates?.[0]?.content?.parts`: present exactly when there is a
      first candidate with content that has parts, and then those parts. */
  function FirstCandidateParts(response: ImageResponse): (r: Option<seq<Part>>)
    ensures r.Some? <==>
      && response.candidates.Some? && response.candidates.value != []
      && response.candidates.value[0].content.Some?
      && response.candidates.value[0].content.value.parts.Some?
    ensures r.Some? ==> r == response.candidates.value[0].content.value.parts
  {
    match response.candidates
    case None => None
    case Some(cs) =>
      if cs == [] then None
      else match cs[0].content
        case None => None
        case Some(content) => content.parts
  }

  predicate NoInlineData(parts: seq<Part>) {
    forall j :: 0 <= j < |parts| ==> parts[j].inlineData.None?
  }

  /** Part `k` carries inline data and no part before it does. */
  predicate IsFirstInline(parts: seq<Part>, k: nat) {
    k < |parts| && parts[k].inlineData.Some? && NoInlineData(parts[..k])
  }

  /** Index of the first part at or after `from` that carries inline data. */
  function FirstInlineFrom(parts: seq<Part>, from: nat): (r: Option<nat>)
    requires from <= |parts|
    ensures r.Some? ==>
      && from <= r.value < |parts|
      && parts[r.value].inlineData.Some?
      && forall j :: from <= j < r.value ==> parts[j].inlineData.None?
    ensures r.None? ==> forall j :: from <= j < |parts| ==> parts[j].inlineData.None?
    decreases |parts| - from
  {
    if from == |parts| then None
    else if parts[from].inlineData.Some? then Some(from)
    else FirstInlineFrom(parts, from + 1)
  }

  /** `${part.inlineData.data}` after the fixed prefix; an absent `data` is
      rendered by the template literal as "undefined". */
  function DataUri(blob: Blob): (r: string)
    ensures |DataUriPrefix| <= |r| && r[..|DataUriPrefix|] == DataUriPrefix
    ensures blob.data.Some? ==> r[|DataUriPrefix|..] == blob.data.value
    ensures blob.data.None? ==> r[|DataUriPrefix|..] == "undefined"
  {
    DataUriPrefix + (match blob.data case Some(d) => d case None => "undefined")
  }

  predicate IsDataUri(s: string) {
    |DataUriPrefix| <= |s| && s[..|DataUriPrefix|] == DataUriPrefix
  }

  /** The checks after the image call: no parts at all is the safety-filter error;
      otherwise the first part with inline data gives the result, and parts
      without any is the no-image-data error. */
  function ExtractImage(response: ImageResponse): (r: Result<string, string>)
    ensures FirstCandidateParts(response).None? ==> r == Failure(SafetyFilterMessage)
    ensures FirstCandidateParts(response).Some? && NoInlineData(FirstCandidateParts(response).value) ==>
      r == Failure(NoImageDataMessage)
    ensures forall k: nat :: FirstCandidateParts(response).Some? && IsFirstInline(FirstCandidateParts(response).value, k) ==>
      r == Success(DataUri(FirstCandidateParts(response).value[k].inlineData.value))
    ensures r.Success? ==> IsDataUri(r.value)
  {
    match FirstCandidateParts(response)
    case None => Failure(SafetyFilterMessage)
    case Some(parts) =>
      match FirstInlineFrom(parts, 0)
      case None => Failure(NoImageDataMessage)
      case Some(k) =>
        var blob := parts[k].inlineData.value;
        Success(DataUri(blob))
  }

  /** Parts after the first one carrying inline data are never consulted. */
  lemma LaterPartsIgnored(parts: seq<Part>, k: nat, rest: seq<Part>)
    requires k < |parts| && parts[k].inlineData.Some?
    ensures FirstInlineFrom(parts[..k + 1] + rest, 0) == FirstInlineFrom(parts, 0)
  {
    LaterPartsIgnoredFrom(parts, k, rest, 0);
  }

  lemma {:induction false} LaterPartsIgnoredFrom(parts: seq<Part>, k: nat, rest: seq<Part>, from: nat)
    requires k < |parts| && parts[k].inlineData.Some? && from <= k
    ensures FirstInlineFrom(parts[..k + 1] + rest, from) == FirstInlineFrom(parts, from)
    decreases k - from
  {
    var a := parts[..k + 1] + rest;
    assert a[from] == parts[from];
    if from < k && parts[from].inlineData.None? {
      LaterPartsIgnoredFrom(parts, k, rest, from + 1);
    }
  }

  /** `new Error(error.message || "图像生成失败")`. */
  function Rewrap(message: string): (r: string)
    ensures r != []
    ensures message != [] ==> r == message
    ensures message == [] ==> r == DefaultImageError
  {
    if message != [] then message else DefaultImageError
  }

  /** `generateSceneImage(prompt)` given the outcomes of its two model calls. */
  function GenerateSceneImage(prompt: string, call: ImageCall): (r: Result<string, string>)
    ensures r.Success? ==> IsDataUri(r.value)
    ensures r.Failure? ==> r.error != []
    ensures call.translation.Failure? ==> r == Failure(Rewrap(call.translation.error))
    ensures call.translation.Success? ==>
      var sent := RequestText(ChoosePrompt(call.translation.value, prompt));
      && (call.respond(sent).Failure? ==> r == Failure(Rewrap(call.respond(sent).error)))
      && (call.respond(sent).Success? ==> r == ExtractImage(call.respond(sent).value))
  {
    match call.translation
    case Failure(m) => Failure(Rewrap(m))
    case Success(text) =>
      match call.respond(RequestText(ChoosePrompt(text, prompt)))
      case Failure(m) => Failure(Rewrap(m))
      case Success(response) =>
        match ExtractImage(response)
        case Success(uri) => Success(uri)
        case Failure(m) => Failure(Rewrap(m))
  }
}
