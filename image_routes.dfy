/**
 * The `/api/generate-image` handler: the guard on the request body, the call to
 * `generateImage`, the split of the data URL it returns into media type and
 * base64 text, and the mapping of every failure to one generic 500 answer.
 */
module ImageRoutes {
  import opened Wrappers
  import opened Text
  import opened ImageClient

  const MissingInputMessage := "A prompt or a canvas image is required to begin."
  const GenericFailureMessage := "The Technical Hub encountered an error rendering your vision. Please try again."

  /** The answer of the route. `b64` is absent when the URL has no comma. */
  datatype ImageResponse =
    | Generated(b64: Option<string>, mimeType: string)
    | Failure(status: int, error: string)

  /** What happened on one request: the parts sent to the model, if the model was
      called, and the answer. */
  datatype Exchange = Exchange(sent: Option<seq<Part>>, response: ImageResponse)

  /** `const [header, base64Data] = url.split(",")` and
      `header.split(":")[1].split(";")[0]`; `None` when the header has no ':'
      (reading a property of `undefined` throws). */
  function ParseDataUrl(url: string): Option<(string, Option<string>)> {
    var pieces := Split(url, ',');
    var b64 := if |pieces| > 1 then Some(pieces[1]) else None;
    var headerParts := Split(pieces[0], ':');
    if |headerParts| < 2 then None
    else Some((Split(headerParts[1], ';')[0], b64))
  }

  /** The prompt as `${prompt}` renders it: an absent prompt becomes "undefined". */
  function PromptText(prompt: Option<string>): string {
    if prompt.Some? then prompt.value else "undefined"
  }

  /** The route as a function of the body's `prompt` and `image` and of the model's reply. */
  function Handle(prompt: Option<string>, image: Option<string>, reply: Reply): (x: Exchange)
    ensures !Truthy(prompt) && !Truthy(image) <==> x.sent.None?
    ensures x.sent.None? ==> x.response == Failure(400, MissingInputMessage)
    ensures x.sent.Some? ==> x.sent.value == RequestParts(PromptText(prompt), image)
    ensures x.sent.Some? ==> x.response != Failure(400, MissingInputMessage)
    ensures x.response.Failure? ==>
      (x.response.status == 400 && x.response.error == MissingInputMessage)
      || (x.response.status == 500 && x.response.error == GenericFailureMessage)
  {
    if !Truthy(prompt) && !Truthy(image) then Exchange(None, Failure(400, MissingInputMessage))
    else
      var sent := Some(RequestParts(PromptText(prompt), image));
      match GenerateImage(reply)
      case Err(_) => Exchange(sent, Failure(500, GenericFailureMessage))
      case Ok(url) =>
        match ParseDataUrl(url)
        case None => Exchange(sent, Failure(500, GenericFailureMessage))
        case Some((mime, b64)) => Exchange(sent, Generated(b64, mime))
  }

  /** A URL `scheme:mime;param,data` parses into `mime` and `data` when none of
      the pieces holds the separator that follows it. */
  lemma ParseFields(scheme: string, mime: string, param: string, data: string)
    requires ':' !in scheme && ':' !in mime && ':' !in param && ';' !in mime && ';' !in param
    requires ',' !in scheme && ',' !in mime && ',' !in param && ',' !in data
    ensures ParseDataUrl(scheme + [':'] + mime + [';'] + param + [','] + data) == Some((mime, Some(data)))
  {
    var header := scheme + [':'] + mime + [';'] + param;
    var rest := mime + [';'] + param;
    assert ',' !in header && ':' !in rest;
    assert header == scheme + [':'] + rest;
    SplitPair(header, data, ',');
    SplitPair(scheme, rest, ':');
    SplitPair(mime, param, ';');
  }

  /** Parsing undoes `DataUrl` for a media type with no ':', ';' or ',' and data
      with no ','. */
  lemma ParseDataUrlRoundTrip(mime: string, data: string)
    requires ':' !in mime && ';' !in mime && ',' !in mime && ',' !in data
    ensures ParseDataUrl(DataUrl(mime, data)) == Some((mime, Some(data)))
  {
    assert DataUrl(mime, data) == "data" + [':'] + mime + [';'] + "base64" + [','] + data;
    ParseFields("data", mime, "base64", data);
  }

  /** A reply whose chosen part has image data and a plain media type is
      answered with that media type and data. */
  lemma GeneratedCarriesReply(prompt: Option<string>, image: Option<string>, candidates: Option<seq<Candidate>>)
    requires Truthy(prompt) || Truthy(image)
    requires ImagePartOf(candidates).Some?
    requires var inline := ImagePartOf(candidates).value.inlineData.value;
      Truthy(inline.data) && ',' !in inline.data.value
      && Truthy(inline.mimeType) && ':' !in inline.mimeType.value
      && ';' !in inline.mimeType.value && ',' !in inline.mimeType.value
    ensures var inline := ImagePartOf(candidates).value.inlineData.value;
      Handle(prompt, image, Answered(candidates)).response
        == Generated(Some(inline.data.value), inline.mimeType.value)
  {
    var inline := ImagePartOf(candidates).value.inlineData.value;
    ParseDataUrlRoundTrip(inline.mimeType.value, inline.data.value);
  }

  /** A failed model call never shows its own message: the answer is the generic 500. */
  lemma CallFailureIsHidden(prompt: Option<string>, image: Option<string>, message: string)
    requires Truthy(prompt) || Truthy(image)
    ensures Handle(prompt, image, CallFailed(message)).response == Failure(500, GenericFailureMessage)
  {
  }

  /** A reply with no image part, or whose image part has no data, is answered
      with the generic 500 and not with the fixed error of `generateImage`. */
  lemma NoImageIsHidden(prompt: Option<string>, image: Option<string>, candidates: Option<seq<Candidate>>)
    requires Truthy(prompt) || Truthy(image)
    requires var part := ImagePartOf(candidates);
      part.None? || !Truthy(part.value.inlineData.value.data)
    ensures Handle(prompt, image, Answered(candidates)).response == Failure(500, GenericFailureMessage)
  {
  }

  /** A reply whose image part has comma-free data but no media type is answered
      as a PNG. */
  lemma MissingMimeIsPng(prompt: Option<string>, image: Option<string>, candidates: Option<seq<Candidate>>)
    requires Truthy(prompt) || Truthy(image)
    requires ImagePartOf(candidates).Some?
    requires var inline := ImagePartOf(candidates).value.inlineData.value;
      Truthy(inline.data) && ',' !in inline.data.value && !Truthy(inline.mimeType)
    ensures var inline := ImagePartOf(candidates).value.inlineData.value;
      Handle(prompt, image, Answered(candidates)).response == Generated(Some(inline.data.value), "image/png")
  {
    var inline := ImagePartOf(candidates).value.inlineData.value;
    ParseDataUrlRoundTrip("image/png", inline.data.value);
  }

  /** Text after a second comma of `scheme:mime;param,data,tail` is dropped. */
  lemma ParseFieldsTail(scheme: string, mime: string, param: string, data: string, tail: string)
    requires ':' !in scheme && ':' !in mime && ':' !in param && ';' !in mime && ';' !in param
    requires ',' !in scheme && ',' !in mime && ',' !in param && ',' !in data && ',' !in tail
    ensures ParseDataUrl(scheme + [':'] + mime + [';'] + param + [','] + data + [','] + tail)
      == Some((mime, Some(data)))
  {
    var header := scheme + [':'] + mime + [';'] + param;
    var rest := mime + [';'] + param;
    assert ',' !in header && ':' !in rest;
    assert header == scheme + [':'] + rest;
    SplitTriple(header, data, tail, ',');
    SplitPair(scheme, rest, ':');
    SplitPair(mime, param, ';');
  }

  /** Data with a comma comes back cut at it. */
  lemma DataCutAtComma(mime: string, data: string, tail: string)
    requires ':' !in mime && ';' !in mime && ',' !in mime && ',' !in data && ',' !in tail
    ensures ParseDataUrl(DataUrl(mime, data + [','] + tail)) == Some((mime, Some(data)))
  {
    assert DataUrl(mime, data + [','] + tail)
      == "data" + [':'] + mime + [';'] + "base64" + [','] + data + [','] + tail;
    ParseFieldsTail("data", mime, "base64", data, tail);
  }
}
