/**
  The image generation adapter `call_banana_api` (utils.py:54-124): the
  request payload built around the prompt, and the classification of the
  service's answer, or of the transport failure, into the two shapes the
  function returns: `[{"image": data}]` or `{"error": message}`.

  The HTTP exchange itself (the POST, `raise_for_status`, `response.json()`)
  is a parameter `post` from the payload sent to what came back.
 */
module ImageApi {
  import opened Wrappers

  newtype byte = x: int | 0 <= x < 256

  // ---------------------------------------------------------------------------
  // The request payload (utils.py:59-96)
  // ---------------------------------------------------------------------------

  /** The text in front of the prompt. */
  const PromptPrefix: string := "A clear, realistic photograph of: "

  /** The style lines after the prompt, with the indentation of the source literal. */
  const PromptSuffix: string :=
    "\n    \n    Style: Natural and realistic\n    Quality: High detail\n    Perspective: Normal eye level\n    Lighting: Clear and natural"

  datatype TextPart = TextPart(text: string)
  datatype RequestContent = RequestContent(parts: seq<TextPart>)
  datatype GenerationConfig = GenerationConfig(temperature: real, topP: real, topK: nat, maxOutputTokens: nat)
  datatype SafetySetting = SafetySetting(category: string, threshold: string)

  /** The JSON body `{"contents": ..., "generationConfig": ..., "safety_settings": ...}`. */
  datatype Payload = Payload(contents: seq<RequestContent>, generationConfig: GenerationConfig, safetySettings: seq<SafetySetting>)

  /** The three harm categories blocked from medium probability up. */
  const SafetySettings: seq<SafetySetting> := [
    SafetySetting("HARM_CATEGORY_DANGEROUS_CONTENT", "BLOCK_MEDIUM_AND_ABOVE"),
    SafetySetting("HARM_CATEGORY_HARASSMENT", "BLOCK_MEDIUM_AND_ABOVE"),
    SafetySetting("HARM_CATEGORY_HATE_SPEECH", "BLOCK_MEDIUM_AND_ABOVE")
  ]

  /**
    The payload for `prompt`. `context` stands for `context_image_bytes`,
    which the function accepts and never reads.
   */
  function BuildPayload(prompt: string, context: Option<seq<byte>>): (p: Payload)
    ensures |p.contents| == 1 && |p.contents[0].parts| == 1
    ensures |p.contents[0].parts[0].text| == |PromptPrefix| + |prompt| + |PromptSuffix|
    ensures p.contents[0].parts[0].text[..|PromptPrefix|] == PromptPrefix
    ensures p.contents[0].parts[0].text[|PromptPrefix|..|PromptPrefix| + |prompt|] == prompt
    ensures p.contents[0].parts[0].text[|PromptPrefix| + |prompt|..] == PromptSuffix
    ensures p.generationConfig.temperature == 0.85 && p.generationConfig.topP == 0.9
    ensures p.generationConfig.topK == 45 && p.generationConfig.maxOutputTokens == 2048
    ensures |p.safetySettings| == 3
    ensures p.safetySettings[0].category == "HARM_CATEGORY_DANGEROUS_CONTENT"
    ensures p.safetySettings[1].category == "HARM_CATEGORY_HARASSMENT"
    ensures p.safetySettings[2].category == "HARM_CATEGORY_HATE_SPEECH"
    ensures forall i :: 0 <= i < 3 ==> p.safetySettings[i].threshold == "BLOCK_MEDIUM_AND_ABOVE"
  {
    var text := PromptPrefix + prompt + PromptSuffix;
    assert text[..|PromptPrefix|] == PromptPrefix;
    assert text[|PromptPrefix|..|PromptPrefix| + |prompt|] == prompt;
    assert text[|PromptPrefix| + |prompt|..] == PromptSuffix;
    Payload([RequestContent([TextPart(text)])], GenerationConfig(0.85, 0.9, 45, 2048), SafetySettings)
  }

  /** Reads the prompt back out of a payload of the shape `BuildPayload` produces. */
  function PromptOf(p: Payload): Option<string>
  {
    if |p.contents| == 1 && |p.contents[0].parts| == 1 then
      var text := p.contents[0].parts[0].text;
      if |PromptPrefix| + |PromptSuffix| <= |text|
         && text[..|PromptPrefix|] == PromptPrefix
         && text[|text| - |PromptSuffix|..] == PromptSuffix
      then Some(text[|PromptPrefix|..|text| - |PromptSuffix|])
      else None
    else None
  }

  /** The prompt is recoverable from the payload: it sits between the fixed prefix and suffix. */
  lemma PromptRoundTrip(prompt: string, context: Option<seq<byte>>)
    ensures PromptOf(BuildPayload(prompt, context)) == Some(prompt)
  {
  }

  /**
    Two calls send the same payload exactly when their prompts agree: the
    context bytes never reach the request.
   */
  lemma PayloadDeterminedByPrompt(p1: string, c1: Option<seq<byte>>, p2: string, c2: Option<seq<byte>>)
    ensures BuildPayload(p1, c1) == BuildPayload(p2, c2) <==> p1 == p2
  {
  }

  // ---------------------------------------------------------------------------
  // What comes back (utils.py:98-124)
  // ---------------------------------------------------------------------------

  /** A JSON object key that is present or absent: `None` is an absent key. */
  datatype InlineData = InlineData(data: Option<string>)
  datatype Part = Part(inlineData: Option<InlineData>)
  datatype Content = Content(parts: Option<seq<Part>>)
  datatype Candidate = Candidate(content: Option<Content>)
  datatype Response = Response(candidates: Option<seq<Candidate>>)

  /** The `"error"` member of a failed request's JSON body. */
  datatype ErrorField = ErrorAbsent | ErrorNotObject | ErrorObject(message: Option<string>)
  datatype ErrorBody = BodyNotObject | BodyObject(error: ErrorField)

  /** `e.response` of a `RequestException`: missing, not JSON, or parsed. */
  datatype ErrorResponse = NoResponse | NotJson | Json(body: ErrorBody)

  /**
    The outcome of the POST: a 2xx reply whose body parsed, or a
    `RequestException` with its `str(e)` and its response.
   */
  datatype Transport = Delivered(response: Response) | RequestFailed(text: string, errorResponse: ErrorResponse)

  /** One element of a returned list: a dict whose `"image"` key may be absent. */
  datatype Entry = Entry(image: Option<string>)

  /** The Python value a call returns, in the shapes its callers test for. */
  datatype ApiResult = ErrorDict(error: string) | ImageList(entries: seq<Entry>) | OtherValue

  /** A call returns a value or raises an exception other than `RequestException`. */
  datatype CallOutcome = Returned(result: ApiResult) | Raised(message: string)

  const NoCandidatesMessage: string := "No candidates in response"
  const NoImageMessage: string := "No image generated in response"

  /** `str(KeyError(key))`. */
  function KeyErrorText(key: string): string
  {
    "'" + key + "'"
  }

  /**
    `next((part for part in parts if "inlineData" in part), None)`, searching
    from position `from`: the first part carrying inline data, if any.
   */
  function FirstImagePart(parts: seq<Part>, from: nat): (r: Option<nat>)
    ensures r.Some? ==> from <= r.value < |parts| && parts[r.value].inlineData.Some?
                        && forall j :: from <= j < r.value ==> parts[j].inlineData.None?
    ensures r.None? ==> forall j :: from <= j < |parts| ==> parts[j].inlineData.None?
    decreases |parts| - from
  {
    if from >= |parts| then None
    else if parts[from].inlineData.Some? then Some(from)
    else FirstImagePart(parts, from + 1)
  }

  /** The classification of a delivered reply (utils.py:103-113). */
  function ClassifyResponse(response: Response): CallOutcome
  {
    match response.candidates
    case None => Returned(ErrorDict(NoCandidatesMessage))
    case Some(candidates) =>
      if |candidates| == 0 then Returned(ErrorDict(NoCandidatesMessage))
      else
        match candidates[0].content
        case None => Raised(KeyErrorText("content"))
        case Some(content) =>
          match content.parts
          case None => Raised(KeyErrorText("parts"))
          case Some(parts) =>
            match FirstImagePart(parts, 0)
            case None => Returned(ErrorDict(NoImageMessage))
            case Some(i) =>
              match parts[i].inlineData.value.data
              case None => Raised(KeyErrorText("data"))
              case Some(data) => Returned(ImageList([Entry(Some(data))]))
  }

  /**
    The message of a failed request (utils.py:115-124): the nested
    `error.message` of a JSON error body, else `str(e)`. Every other
    response keeps `str(e)`, for one of three reasons:
    - a body that is not JSON raises a decoding error, and the bare
      `except` swallows it;
    - a body or an `"error"` that is not an object raises an
      `AttributeError` on `.get`, which the bare `except` also swallows;
    - a body without `"error"`, or an `"error"` object without
      `"message"`, raises nothing, because the `.get` defaults give `str(e)`.
   */
  function FailureMessage(text: string, response: ErrorResponse): string
  {
    match response
    case Json(BodyObject(ErrorObject(Some(message)))) => message
    case _ => text
  }

  /** `call_banana_api(prompt, context_image_bytes)`, given how the service answers `post`. */
  function CallBananaApi(prompt: string, context: Option<seq<byte>>, post: Payload -> Transport): CallOutcome
  {
    match post(BuildPayload(prompt, context))
    case Delivered(response) => ClassifyResponse(response)
    case RequestFailed(text, errorResponse) => Returned(ErrorDict(FailureMessage(text, errorResponse)))
  }

  // ---------------------------------------------------------------------------
  // Properties of the classification
  // ---------------------------------------------------------------------------

  /** The parts list of the first candidate, when there is one and both keys are present. */
  ghost predicate FirstCandidateParts(response: Response, parts: seq<Part>)
  {
    response.candidates.Some? && |response.candidates.value| > 0
    && response.candidates.value[0].content == Some(Content(Some(parts)))
  }

  /** Without candidates, and only then, the answer is the "No candidates" error. */
  lemma NoCandidatesCase(response: Response)
    ensures ClassifyResponse(response) == Returned(ErrorDict(NoCandidatesMessage))
            <==> (response.candidates.None? || |response.candidates.value| == 0)
  {
  }

  /**
    The first candidate's first part with inline data decides: the answer is
    the one-element list holding that part's data.
   */
  lemma FirstImageWins(response: Response, parts: seq<Part>, i: nat)
    requires FirstCandidateParts(response, parts)
    requires i < |parts| && parts[i].inlineData.Some? && parts[i].inlineData.value.data.Some?
    requires forall j :: 0 <= j < i ==> parts[j].inlineData.None?
    ensures ClassifyResponse(response) == Returned(ImageList([Entry(parts[i].inlineData.value.data)]))
  {
  }

  /** With candidates but no part carrying inline data, the answer is the "No image" error. */
  lemma NoImageCase(response: Response, parts: seq<Part>)
    requires FirstCandidateParts(response, parts)
    ensures ClassifyResponse(response) == Returned(ErrorDict(NoImageMessage))
            <==> forall j :: 0 <= j < |parts| ==> parts[j].inlineData.None?
  {
  }

  /** Candidates after the first are never examined. */
  lemma OnlyFirstCandidateMatters(first: Candidate, rest1: seq<Candidate>, rest2: seq<Candidate>)
    ensures ClassifyResponse(Response(Some([first] + rest1))) == ClassifyResponse(Response(Some([first] + rest2)))
  {
  }

  /**
    A delivered reply raises `KeyError` exactly when the first candidate has
    no `"content"` or no `"parts"`, or its first image part has no `"data"`.
   */
  lemma RaisesCase(response: Response)
    ensures ClassifyResponse(response).Raised? <==>
      response.candidates.Some? && |response.candidates.value| > 0
      && (response.candidates.value[0].content.None?
          || response.candidates.value[0].content.value.parts.None?
          || (var parts := response.candidates.value[0].content.value.parts.value;
              exists i :: 0 <= i < |parts| && parts[i].inlineData.Some?
                          && (forall j :: 0 <= j < i ==> parts[j].inlineData.None?)
                          && parts[i].inlineData.value.data.None?))
  {
  }

  /**
    Whatever the service does, a call returns either an error dict or a
    one-element list whose element carries an image; a failed request is
    never re-raised.
   */
  lemma CallResultShape(prompt: string, context: Option<seq<byte>>, post: Payload -> Transport)
    ensures CallBananaApi(prompt, context, post).Returned? ==>
              CallBananaApi(prompt, context, post).result.ErrorDict?
              || (CallBananaApi(prompt, context, post).result.ImageList?
                  && |CallBananaApi(prompt, context, post).result.entries| == 1
                  && CallBananaApi(prompt, context, post).result.entries[0].image.Some?)
    ensures post(BuildPayload(prompt, context)).RequestFailed? ==> CallBananaApi(prompt, context, post).Returned?
  {
  }

  /**
    A failed request becomes `{"error": m}`: `m` is the body's nested
    `error.message` when the body is JSON with that field, and `str(e)`
    otherwise.
   */
  lemma RequestFailureMessage(prompt: string, context: Option<seq<byte>>, post: Payload -> Transport, text: string, response: ErrorResponse)
    requires post(BuildPayload(prompt, context)) == RequestFailed(text, response)
    ensures (response.Json? && response.body.BodyObject? && response.body.error.ErrorObject?
             && response.body.error.message.Some?)
            ==> CallBananaApi(prompt, context, post) == Returned(ErrorDict(response.body.error.message.value))
    ensures !(response.Json? && response.body.BodyObject? && response.body.error.ErrorObject?
              && response.body.error.message.Some?)
            ==> CallBananaApi(prompt, context, post) == Returned(ErrorDict(text))
  {
  }

  /** The context bytes never change what a call does. */
  lemma ContextIgnored(prompt: string, c1: Option<seq<byte>>, c2: Option<seq<byte>>, post: Payload -> Transport)
    ensures CallBananaApi(prompt, c1, post) == CallBananaApi(prompt, c2, post)
  {
  }
}
