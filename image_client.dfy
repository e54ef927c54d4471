/**
 * The string handling of `generateImage`: the instruction template around the
 * user's prompt, the request parts, stripping a data-URL prefix from the canvas
 * image, choosing the image part of the model's reply and assembling the
 * result as a data URL (`data:<mediatype>;base64,<data>`, section 2 of RFC 2397).
 * The model call itself is an input: the reply it produced, or its failure.
 */
module ImageClient {
  import opened Wrappers
  import opened Text
  import opened Seqs

  /** The template text before the prompt. */
  const Preamble: string :=
    "\n    You are the Nail Check Technical AI. \n    Your style is: Architectural, Luxury, High-Gloss, and Elite. \n    Instructions:\n    - If the user prompt is vague, apply high-end textures like 3D chrome, jelly finishes, or structural sculpting.\n    - Maintain a 'Vogue' editorial photography aesthetic.\n    - Focus strictly on the nail plate and technical execution.\n    - Avoid messy, amateur, or 'craft-style' art. \n    User Request: "

  /** The template text after the prompt. */
  const Postamble: string := "\n  "

  /** The instruction sent with every request, with the prompt spliced in verbatim. */
  function Instruction(prompt: string): string {
    Preamble + prompt + Postamble
  }

  /** The prompt recovered from an instruction: the text between the two fixed parts. */
  function PromptOf(instruction: string): string
    requires |instruction| >= |Preamble| + |Postamble|
  {
    instruction[|Preamble|..|instruction| - |Postamble|]
  }

  /** The prompt follows "User Request: " in the instruction, and can be read back. */
  lemma InstructionCarriesPrompt(prompt: string)
    ensures Contains(Instruction(prompt), "User Request: " + prompt)
    ensures |Instruction(prompt)| >= |Preamble| + |Postamble| && PromptOf(Instruction(prompt)) == prompt
  {
    var s := Instruction(prompt);
    var i := |Preamble| - 14;
    assert Preamble[i..] == "User Request: ";
    assert s[i..i + 14 + |prompt|] == Preamble[i..] + prompt;
    assert OccursAt(s, "User Request: " + prompt, i);
    assert s[|Preamble|..|s| - |Postamble|] == prompt;
  }

  /** Different prompts give different instructions. */
  lemma InstructionInjective(p: string, q: string)
    requires Instruction(p) == Instruction(q)
    ensures p == q
  {
    InstructionCarriesPrompt(p);
    InstructionCarriesPrompt(q);
  }

  /** `base64Image.split(',')[1] || base64Image`: the text after the first comma
      up to the next one, or the whole input when that is missing or empty. */
  function StripPrefix(image: string): (data: string)
    ensures ',' !in image ==> data == image
  {
    var pieces := Split(image, ',');
    if |pieces| > 1 && pieces[1] != "" then pieces[1]
    else
      assert ',' !in image ==> pieces == [image] by {
        if ',' !in image { SplitJoin([image], ','); }
      }
      image
  }

  /** The data of a one-comma data URL is recovered from it. */
  lemma StripPrefixOfDataUrl(header: string, data: string)
    requires ',' !in header && ',' !in data && data != ""
    ensures StripPrefix(header + "," + data) == data
  {
    assert Join([header, data], ',') == header + "," + data;
    SplitJoin([header, data], ',');
  }

  /** Text after a second comma is dropped. */
  lemma StripPrefixDropsTail(header: string, data: string, tail: string)
    requires ',' !in header && ',' !in data && ',' !in tail && data != ""
    ensures StripPrefix(header + "," + data + "," + tail) == data
  {
    assert Join([tail], ',') == tail;
    assert Join([data, tail], ',') == data + "," + tail;
    assert Join([header, data, tail], ',') == header + "," + data + "," + tail;
    SplitJoin([header, data, tail], ',');
  }

  /** An empty piece after the comma falls back to the whole input. */
  lemma StripPrefixEmptyData(header: string)
    requires ',' !in header
    ensures StripPrefix(header + ",") == header + ","
  {
    assert Join([header, ""], ',') == header + ",";
    SplitJoin([header, ""], ',');
  }

  /** A part of the request: the instruction text or the canvas image. */
  datatype Part = TextPart(text: string) | ImagePart(mimeType: string, data: string)

  /** The request parts: the instruction, then the canvas image when one is given. */
  function RequestParts(prompt: string, image: Option<string>): (parts: seq<Part>)
    ensures |parts| == if Truthy(image) then 2 else 1
    ensures parts[0] == TextPart(Instruction(prompt))
    ensures |parts| == 2 ==> parts[1] == ImagePart("image/png", StripPrefix(image.value))
  {
    [TextPart(Instruction(prompt))]
      + (if Truthy(image) then [ImagePart("image/png", StripPrefix(image.value))] else [])
  }

  /** The parts array as `generateImage` builds it, one push at a time. */
  method BuildParts(prompt: string, image: Option<string>) returns (parts: seq<Part>)
    ensures parts == RequestParts(prompt, image)
  {
    parts := [TextPart(Instruction(prompt))];
    if image.Some? && image.value != "" {
      var data := StripPrefix(image.value);
      parts := parts + [ImagePart("image/png", data)];
    }
  }

  /** The image field of a reply part. */
  datatype InlineData = InlineData(data: Option<string>, mimeType: Option<string>)

  /** A part of the model's reply; a text part has no inline data. */
  datatype ReplyPart = ReplyPart(inlineData: Option<InlineData>)

  datatype Content = Content(parts: Option<seq<ReplyPart>>)

  datatype Candidate = Candidate(content: Option<Content>)

  /** What the model call produced: a reply, or a failure with its message. */
  datatype Reply = Answered(candidates: Option<seq<Candidate>>) | CallFailed(message: string)

  function HasInlineData(): ReplyPart -> bool {
    (p: ReplyPart) => p.inlineData.Some?
  }

  /** The parts of the first candidate, when the reply has them. */
  function FirstCandidateParts(candidates: Option<seq<Candidate>>): Option<seq<ReplyPart>> {
    if candidates.Some? && |candidates.value| > 0 && candidates.value[0].content.Some?
    then candidates.value[0].content.value.parts
    else None
  }

  /** `candidate?.content?.parts?.find(part => part.inlineData)`. */
  function ImagePartOf(candidates: Option<seq<Candidate>>): (r: Option<ReplyPart>)
    ensures r.Some? ==> r.value.inlineData.Some?
    ensures r.Some? ==> FirstCandidateParts(candidates).Some?
    ensures r.Some? ==> var ps := FirstCandidateParts(candidates).value;
      exists k :: 0 <= k < |ps| && ps[k] == r.value && forall j :: 0 <= j < k ==> ps[j].inlineData.None?
    ensures r.None? <==> (FirstCandidateParts(candidates).None?
      || forall k :: 0 <= k < |FirstCandidateParts(candidates).value| ==>
           FirstCandidateParts(candidates).value[k].inlineData.None?)
  {
    match FirstCandidateParts(candidates)
    case None => None
    case Some(ps) =>
      match FindIndex(ps, HasInlineData())
      case None => None
      case Some(k) => Some(ps[k])
  }

  /** The error raised when the reply carries no image data. */
  const NoImageMessage := "The AI Hub could not render this vision. Please check your canvas and try again."

  /** `data:<mime>;base64,<data>`. */
  function DataUrl(mimeType: string, data: string): string {
    "data:" + mimeType + ";base64," + data
  }

  /** The outcome of `generateImage` given the model's reply: the data URL of the
      chosen image part, with "image/png" for a missing or empty media type; the
      fixed error when there is no image data; the call's own failure otherwise. */
  function GenerateImage(reply: Reply): (r: Result<string, string>)
    ensures reply.CallFailed? ==> r == Err(reply.message)
    ensures reply.Answered? ==> var part := ImagePartOf(reply.candidates);
      (r == Err(NoImageMessage) <==> part.None? || !Truthy(part.value.inlineData.value.data))
    ensures reply.Answered? && ImagePartOf(reply.candidates).Some? ==>
      var inline := ImagePartOf(reply.candidates).value.inlineData.value;
      Truthy(inline.data) && !Truthy(inline.mimeType) ==> r == Ok(DataUrl("image/png", inline.data.value))
    ensures reply.Answered? && ImagePartOf(reply.candidates).Some? ==>
      var inline := ImagePartOf(reply.candidates).value.inlineData.value;
      Truthy(inline.data) && Truthy(inline.mimeType) ==> r == Ok(DataUrl(inline.mimeType.value, inline.data.value))
    ensures r.Ok? ==> exists mime, data :: r.value == DataUrl(mime, data) && data != "" && mime != ""
  {
    match reply
    case CallFailed(m) => Err(m)
    case Answered(candidates) =>
      var part := ImagePartOf(candidates);
      if part.None? || !Truthy(part.value.inlineData.value.data) then Err(NoImageMessage)
      else
        var inline := part.value.inlineData.value;
        var mime := if Truthy(inline.mimeType) then inline.mimeType.value else "image/png";
        Ok(DataUrl(mime, inline.data.value))
  }
}
