/** The request composer and the response mappers of the Gemini service. The provider
    itself is a function parameter: it receives the request parts and answers with a
    response or a failure. */
module GeminiService {
  import opened Types
  import opened JsString
  import opened FileUtils

  const ChatFailedMsg: string := "Failed to get response from Gemini."
  const ImagePromptRequiredMsg: string := "A prompt is required for image generation."
  const NoImageMsg: string := "No image was generated. The model may have refused the prompt."
  const ImageFailedMsg: string := "Failed to generate image."

  /** One part of a provider request: `{ text }` or `{ inlineData }`. */
  datatype Segment = TextSegment(text: string) | InlineSegment(inlineData: InlineData)

  /** How a template literal prints an attachment's `content`. */
  function ContentString(c: FileContent): (s: string)
    ensures c.StringContent? ==> s == c.text
    ensures c.NullContent? ==> s == "null"
    ensures c.BufferContent? ==> s == "[object ArrayBuffer]"
  {
    match c
    case StringContent(t) => t
    case BufferContent(_) => "[object ArrayBuffer]"
    case NullContent => "null"
  }

  /** The framing put around a text attachment's content. */
  function FileContentBlock(f: AttachedFile): string {
    "\n\n--- File Content: " + f.name + " ---\n" + ContentString(f.content)
  }

  /** The request parts, stated by the shape of the input: a text attachment yields the
      single text part `prompt + framing` (which is just the framing for an empty prompt);
      a binary attachment adds one inline-data part after the prompt part, or fails when
      its URL is not a data URL. */
  function RequestParts(prompt: string, file: Option<AttachedFile>): Result<seq<Segment>> {
    var promptParts := if prompt == [] then [] else [TextSegment(prompt)];
    match file
    case None => Ok(promptParts)
    case Some(f) =>
      if f.isText then Ok([TextSegment(prompt + FileContentBlock(f))])
      else
        match FileToGenerativePart(f)
        case Err(e) => Err(e)
        case Ok(d) => Ok(promptParts + [InlineSegment(d)])
  }

  /** The parts assembly of `sendMessageToGemini`: push the prompt if it is truthy, then
      append the framed text onto a truthy first text part or push it as a part of its own,
      or push the inline-data part of a binary attachment. */
  method ComposeParts(prompt: string, file: Option<AttachedFile>) returns (r: Result<seq<Segment>>)
    ensures r == RequestParts(prompt, file)
  {
    var parts: seq<Segment> := [];
    if prompt != [] {
      parts := parts + [TextSegment(prompt)];
    }
    assert parts == if prompt == [] then [] else [TextSegment(prompt)];
    if file.Some? {
      var f := file.value;
      if f.isText {
        var fileContent := FileContentBlock(f);
        assert prompt == [] ==> prompt + fileContent == fileContent;
        if |parts| > 0 && parts[0].TextSegment? && parts[0].text != [] {
          parts := parts[0 := TextSegment(parts[0].text + fileContent)];
          assert parts == [TextSegment(prompt + fileContent)];
        } else {
          parts := parts + [TextSegment(fileContent)];
          assert parts == [TextSegment(prompt + fileContent)];
        }
      } else {
        var filePart := FileToGenerativePart(f);
        if filePart.Err? {
          return Err(filePart.error);
        }
        parts := parts + [InlineSegment(filePart.value)];
      }
    }
    return Ok(parts);
  }

  /** With a non-empty prompt the first part is a text part that starts with the prompt, and
      equals it unless a text attachment was appended to it. */
  lemma PromptComesFirst(prompt: string, file: Option<AttachedFile>)
    requires prompt != []
    requires RequestParts(prompt, file).Ok?
    ensures |RequestParts(prompt, file).value| >= 1
    ensures RequestParts(prompt, file).value[0].TextSegment?
    ensures StartsWith(RequestParts(prompt, file).value[0].text, prompt)
    ensures (file.None? || !file.value.isText) ==> RequestParts(prompt, file).value[0] == TextSegment(prompt)
  {
    var t := RequestParts(prompt, file).value[0].text;
    if file.Some? && file.value.isText {
      assert t == prompt + FileContentBlock(file.value);
      assert t[..|prompt|] == prompt;
    } else {
      assert t == prompt;
      assert t[..|prompt|] == t;
    }
  }

  /** A text attachment always leaves exactly one part: the prompt followed by the framed
      content. */
  lemma TextAttachmentSinglePart(prompt: string, f: AttachedFile)
    requires f.isText
    ensures RequestParts(prompt, Some(f)) == Ok([TextSegment(prompt + FileContentBlock(f))])
    ensures prompt == [] ==> RequestParts(prompt, Some(f)) == Ok([TextSegment(FileContentBlock(f))])
  {
    assert [] + FileContentBlock(f) == FileContentBlock(f);
  }

  /** "Hi" with a text file notes.txt holding "line1": the prompt, then the framing. */
  lemma TextAttachmentExample()
    ensures RequestParts("Hi", Some(AttachedFile("notes.txt", "text/plain", "line1", StringContent("line1"), true)))
         == Ok([TextSegment("Hi" + "\n\n--- File Content: notes.txt ---\nline1")])
  {
    var f := AttachedFile("notes.txt", "text/plain", "line1", StringContent("line1"), true);
    TextAttachmentSinglePart("Hi", f);
    assert FileContentBlock(f) == "\n\n--- File Content: notes.txt ---\nline1";
  }

  /** A binary attachment adds exactly one inline-data part, after the prompt part if any;
      without a prompt there is no text part at all. */
  lemma BinaryAttachmentParts(prompt: string, f: AttachedFile)
    requires !f.isText && StartsWith(f.url, "data:")
    ensures RequestParts(prompt, Some(f)).Ok?
    ensures var ps := RequestParts(prompt, Some(f)).value;
      && |ps| == (if prompt == [] then 1 else 2)
      && ps[|ps| - 1] == InlineSegment(InlineData(DataUrlPayload(f.url), f.mimeType))
    ensures prompt == [] ==> forall k :: 0 <= k < |RequestParts(prompt, Some(f)).value| ==>
                               !RequestParts(prompt, Some(f)).value[k].TextSegment?
  {
  }

  /** What the chat provider answered. */
  datatype ChatReply = ChatResponse(text: string) | ChatFailure(reason: string)

  /** The `try`/`catch` around the chat call: a response becomes a model message holding its
      text verbatim, and every failure becomes the one fixed message. */
  function MapChatReply(reply: ChatReply): (r: Result<Message>)
    ensures r.Ok? <==> reply.ChatResponse?
    ensures r.Ok? ==> r.value == Message(Model, [TextPart(reply.text)])
    ensures r.Err? ==> r.error == ChatFailedMsg
  {
    match reply
    case ChatResponse(text) => Ok(Message(Model, [TextPart(text)]))
    case ChatFailure(_) => Err(ChatFailedMsg)
  }

  /** What `sendMessageToGemini` settles to: a conversion error is raised before the `try`
      and escapes unchanged, without the provider being asked; otherwise the provider's
      answer to the composed parts is mapped. */
  function ChatResult(prompt: string, file: Option<AttachedFile>, provider: seq<Segment> -> ChatReply): Result<Message> {
    match RequestParts(prompt, file)
    case Err(e) => Err(e)
    case Ok(parts) => MapChatReply(provider(parts))
  }

  method SendMessageToGemini(prompt: string, file: Option<AttachedFile>, provider: seq<Segment> -> ChatReply)
    returns (r: Result<Message>)
    ensures r == ChatResult(prompt, file, provider)
  {
    var parts := ComposeParts(prompt, file);
    if parts.Err? {
      return Err(parts.error);
    }
    r := MapChatReply(provider(parts.value));
  }

  /** A chat send settles in one of three ways: a one-part model message holding the reply
      text, the conversion error, or the collapsed provider error. */
  lemma ChatOutcomes(prompt: string, file: Option<AttachedFile>, provider: seq<Segment> -> ChatReply)
    ensures var r := ChatResult(prompt, file, provider);
      && (r.Ok? ==> r.value.role == Model && |r.value.parts| == 1 && r.value.parts[0].TextPart?)
      && (r.Err? ==> r.error in {NotDataUrlMsg, ChatFailedMsg})
      && (r.Err? && r.error == NotDataUrlMsg <==> RequestParts(prompt, file).Err?)
  {
  }

  /** A binary attachment without a data URL fails the same way whatever the provider would
      have answered: the provider is never consulted. */
  lemma ConversionErrorEscapes(prompt: string, f: AttachedFile, p1: seq<Segment> -> ChatReply, p2: seq<Segment> -> ChatReply)
    requires !f.isText && !StartsWith(f.url, "data:")
    ensures ChatResult(prompt, Some(f), p1) == ChatResult(prompt, Some(f), p2) == Err(NotDataUrlMsg)
  {
  }

  /** `response.candidates?.[0]?.content?.parts?.[0]?.inlineData`: the service checks that
      it is present but not that its two fields are. */
  datatype InlineImage = InlineImage(data: Option<string>, mimeType: Option<string>)

  /** What the image provider answered: a response whose first part may carry inline image
      data, or a failure. */
  datatype ImageReply = ImageResponse(inlineData: Option<InlineImage>) | ImageFailure(reason: string)

  /** How a template literal prints a string field that may be `undefined`. */
  function FieldText(field: Option<string>): string {
    match field
    case Some(text) => text
    case None => "undefined"
  }

  /** The body of the `try` in `generateImageWithGemini`: inline data becomes an image part
      whose URL is a data URL and whose alt text is the prompt; a response without it raises
      the refusal error. */
  function ImageAttempt(prompt: string, reply: ImageReply): (r: Result<Message>)
    ensures reply == ImageResponse(None) ==> r == Err(NoImageMsg)
    ensures reply.ImageFailure? ==> r == Err(reply.reason)
  {
    match reply
    case ImageFailure(reason) => Err(reason)
    case ImageResponse(None) => Err(NoImageMsg)
    case ImageResponse(Some(img)) =>
      Ok(Message(Model, [ImagePart(DataUrl(FieldText(img.mimeType), FieldText(img.data)), Some(prompt))]))
  }

  /** `generateImageWithGemini`: an empty prompt is refused before the provider is asked;
      otherwise every error of the attempt, the refusal included, is replaced by the one
      fixed message. */
  function GenerateImageWithGemini(prompt: string, provider: seq<Segment> -> ImageReply): (r: Result<Message>)
    ensures prompt == [] ==> r == Err(ImagePromptRequiredMsg)
    ensures prompt != [] ==>
              (r.Ok? <==> provider([TextSegment(prompt)]).ImageResponse? && provider([TextSegment(prompt)]).inlineData.Some?)
    ensures prompt != [] && r.Err? ==> r.error == ImageFailedMsg
    ensures r.Ok? ==>
              var img := provider([TextSegment(prompt)]).inlineData.value;
              r.value == Message(Model, [ImagePart("data:" + FieldText(img.mimeType) + ";base64," + FieldText(img.data), Some(prompt))])
  {
    if prompt == [] then Err(ImagePromptRequiredMsg)
    else
      match ImageAttempt(prompt, provider([TextSegment(prompt)]))
      case Err(_) => Err(ImageFailedMsg)
      case Ok(m) => Ok(m)
  }

  lemma ImageExample(provider: seq<Segment> -> ImageReply)
    requires provider([TextSegment("a cat")]) == ImageResponse(Some(InlineImage(Some("QQ=="), Some("image/png"))))
    ensures GenerateImageWithGemini("a cat", provider)
         == Ok(Message(Model, [ImagePart("data:image/png;base64,QQ==", Some("a cat"))]))
  {
    assert DataUrl("image/png", "QQ==") == "data:image/png;base64,QQ==";
  }

  /** Inline data without a MIME type still counts as an image: the URL then reads
      `data:undefined;base64,...`. */
  lemma MissingMimeTypePrintsUndefined(prompt: string, provider: seq<Segment> -> ImageReply, data: string)
    requires prompt != []
    requires provider([TextSegment(prompt)]) == ImageResponse(Some(InlineImage(Some(data), None)))
    ensures GenerateImageWithGemini(prompt, provider)
         == Ok(Message(Model, [ImagePart("data:undefined;base64," + data, Some(prompt))]))
  {
    assert DataUrl("undefined", data) == "data:undefined;base64," + data;
  }

  /** A refusal (a response without inline data) and a transport failure cannot be told
      apart by the caller, although the refusal raised its own message first. */
  lemma RefusalLooksLikeFailure(prompt: string, refused: seq<Segment> -> ImageReply, failed: seq<Segment> -> ImageReply)
    requires prompt != []
    requires refused([TextSegment(prompt)]) == ImageResponse(None)
    requires failed([TextSegment(prompt)]).ImageFailure?
    ensures ImageAttempt(prompt, refused([TextSegment(prompt)])) == Err(NoImageMsg)
    ensures GenerateImageWithGemini(prompt, refused) == GenerateImageWithGemini(prompt, failed) == Err(ImageFailedMsg)
  {
  }

  /** The image URL the service builds is read back by `fileToGenerativePart` as the same
      base64 data with the record's MIME type, provided both fields are present and hold no
      comma. */
  lemma {:induction false} GeneratedImageRoundTrip(prompt: string, provider: seq<Segment> -> ImageReply, name: string)
    requires GenerateImageWithGemini(prompt, provider).Ok?
    requires var img := provider([TextSegment(prompt)]).inlineData.value;
      && img.mimeType.Some? && img.data.Some?
      && ',' !in img.mimeType.value && ',' !in img.data.value
    ensures var img := provider([TextSegment(prompt)]).inlineData.value;
      var part := GenerateImageWithGemini(prompt, provider).value.parts[0];
      FileToGenerativePart(AttachedFile(name, img.mimeType.value, part.url, NullContent, false))
        == Ok(InlineData(img.data, img.mimeType.value))
  {
    var img := provider([TextSegment(prompt)]).inlineData.value;
    DataUrlRoundTrip(img.mimeType.value, img.data.value);
  }
}
