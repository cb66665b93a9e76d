/** The conversation controller: the message log with its loading and error state, and
    `handleSendMessage`. The `await` on the service is the point where the send is split:
    `BeginSend` runs up to it, `CompleteSend` runs the `try` continuation and the `finally`. */
module App {
  import opened Types
  import opened FileUtils
  import opened GeminiService

  const GreetingText: string :=
    "Hello! I'm Gemini. You can ask me questions, attach images or files, or ask me to generate an image. How can I help you today?"
  const UnknownErrorMsg: string := "An unknown error occurred."

  /** The one message the log starts with. */
  function Greeting(): (m: Message)
    ensures m.role == Model && |m.parts| == 1 && m.parts[0].TextPart?
  {
    Message(Model, [TextPart(GreetingText)])
  }

  /** `!prompt && !attachedFile`: the prompt is not trimmed here. */
  predicate IsEmptySend(prompt: string, attachedFile: Option<AttachedFile>) {
    prompt == [] && attachedFile.None?
  }

  /** The user message: a text part when the prompt is non-empty, then a file part when a
      file is attached. */
  function UserMessage(prompt: string, attachedFile: Option<AttachedFile>): Message {
    Message(User,
      (if prompt == [] then [] else [TextPart(prompt)])
      + (if attachedFile.None? then [] else [FilePartOf(attachedFile.value)]))
  }

  /** `e.message || 'An unknown error occurred.'` */
  function ErrorText(message: string): (t: string)
    ensures t != []
    ensures message != [] ==> t == message
  {
    if message == [] then UnknownErrorMsg else message
  }

  /** The message appended once the service settles: its answer, or an error text part. */
  function ReplyMessage(outcome: Result<Message>): Message {
    match outcome
    case Ok(m) => m
    case Err(e) => Message(Model, [TextPart("Error: " + ErrorText(e))])
  }

  /** The service a send is routed to: image mode asks only the image service, with the
      prompt alone. */
  function ServiceOutcome(prompt: string, attachedFile: Option<AttachedFile>, isImageGenerationMode: bool,
                          chat: seq<Segment> -> ChatReply, image: seq<Segment> -> ImageReply): Result<Message> {
    if isImageGenerationMode then GenerateImageWithGemini(prompt, image)
    else ChatResult(prompt, attachedFile, chat)
  }

  /** The dispatch inside the `try`: image mode asks the image service with the prompt alone,
      chat mode asks the chat service with the prompt and the attachment. What comes back can
      be logged as it is: an answer has a part, and an error has a message of its own. */
  method CallService(prompt: string, attachedFile: Option<AttachedFile>, isImageGenerationMode: bool,
                     chat: seq<Segment> -> ChatReply, image: seq<Segment> -> ImageReply)
    returns (response: Result<Message>)
    ensures response == ServiceOutcome(prompt, attachedFile, isImageGenerationMode, chat, image)
    ensures response.Ok? ==> response.value.role == Model && NonEmpty(response.value)
    ensures response.Err? ==> ErrorText(response.error) == response.error
  {
    if isImageGenerationMode {
      response := GenerateImageWithGemini(prompt, image);
    } else {
      response := SendMessageToGemini(prompt, attachedFile, chat);
    }
    ServiceOutcomes(prompt, attachedFile, isImageGenerationMode, chat, image);
  }

  /** The user message is empty exactly for an empty send, keeps the text before the file,
      and holds the prompt verbatim. */
  lemma UserMessageShape(prompt: string, attachedFile: Option<AttachedFile>)
    ensures NonEmpty(UserMessage(prompt, attachedFile)) <==> !IsEmptySend(prompt, attachedFile)
    ensures var ps := UserMessage(prompt, attachedFile).parts;
      && |ps| == (if prompt == [] then 0 else 1) + (if attachedFile.None? then 0 else 1)
      && (prompt != [] ==> ps[0] == TextPart(prompt))
      && (attachedFile.Some? ==> ps[|ps| - 1] == FilePart(attachedFile.value.name, attachedFile.value.mimeType, attachedFile.value.url))
  {
  }

  /** A prompt of white space alone is not an empty send here. */
  lemma WhitespacePromptProceeds()
    ensures !IsEmptySend(" ", None)
    ensures UserMessage(" ", None) == Message(User, [TextPart(" ")])
  {
  }

  /** Every service answer that reaches the log is a one-part model message, and every error
      carries a non-empty message, so the "unknown error" text never shows. */
  lemma ServiceOutcomes(prompt: string, attachedFile: Option<AttachedFile>, isImageGenerationMode: bool,
                        chat: seq<Segment> -> ChatReply, image: seq<Segment> -> ImageReply)
    ensures var r := ServiceOutcome(prompt, attachedFile, isImageGenerationMode, chat, image);
      && (r.Ok? ==> r.value.role == Model && |r.value.parts| == 1)
      && (r.Err? ==> r.error in {NotDataUrlMsg, ChatFailedMsg, ImagePromptRequiredMsg, ImageFailedMsg})
      && (r.Err? ==> ErrorText(r.error) == r.error)
  {
    ChatOutcomes(prompt, attachedFile, chat);
  }

  /** In image mode the attachment and the chat service play no part. */
  lemma ImageModeIgnoresAttachment(prompt: string, a1: Option<AttachedFile>, a2: Option<AttachedFile>,
                                   c1: seq<Segment> -> ChatReply, c2: seq<Segment> -> ChatReply,
                                   image: seq<Segment> -> ImageReply)
    ensures ServiceOutcome(prompt, a1, true, c1, image) == ServiceOutcome(prompt, a2, true, c2, image)
  {
  }

  /** A failure is logged as one model text part reading "Error: " and the message. */
  lemma ErrorReplyShape(e: string)
    ensures var m := ReplyMessage(Err(e));
      && m.role == Model && |m.parts| == 1 && m.parts[0].TextPart?
      && m.parts[0].content[..7] == "Error: "
      && m.parts[0].content[7..] == ErrorText(e)
  {
  }

  class Conversation {
    var messages: seq<Message>
    var isLoading: bool
    var error: Option<string>

    /** The log starts with the greeting and holds no empty message. */
    ghost predicate Valid()
      reads this
    {
      && |messages| >= 1
      && messages[0] == Greeting()
      && forall i :: 0 <= i < |messages| ==> NonEmpty(messages[i])
    }

    constructor ()
      ensures Valid()
      ensures messages == [Greeting()] && !isLoading && error == None
    {
      messages := [Greeting()];
      isLoading := false;
      error := None;
    }

    /** `handleSendMessage` up to the `await`: an empty send changes nothing; otherwise
        loading starts, the error is cleared and the user message is appended. */
    method BeginSend(prompt: string, attachedFile: Option<AttachedFile>) returns (accepted: bool)
      requires Valid()
      modifies this
      ensures Valid()
      ensures accepted <==> !IsEmptySend(prompt, attachedFile)
      ensures !accepted ==> unchanged(this)
      ensures accepted ==> messages == old(messages) + [UserMessage(prompt, attachedFile)] && isLoading && error == None
    {
      if prompt == [] && attachedFile.None? {
        return false;
      }
      isLoading := true;
      error := None;
      var parts: seq<MessagePart> := [];
      if prompt != [] {
        parts := parts + [TextPart(prompt)];
      }
      if attachedFile.Some? {
        parts := parts + [FilePartOf(attachedFile.value)];
      }
      assert parts == UserMessage(prompt, attachedFile).parts;
      messages := messages + [Message(User, parts)];
      accepted := true;
    }

    /** The continuation once the service settles: append its message, or record the error
        and append it as text; then, in every case, loading ends. */
    method CompleteSend(outcome: Result<Message>)
      requires Valid()
      requires outcome.Ok? ==> NonEmpty(outcome.value)
      modifies this
      ensures Valid()
      ensures messages == old(messages) + [ReplyMessage(outcome)]
      ensures error == if outcome.Ok? then old(error) else Some(ErrorText(outcome.error))
      ensures !isLoading
    {
      match outcome {
        case Ok(response) =>
          messages := messages + [response];
        case Err(e) =>
          var errorMessage := ErrorText(e);
          error := Some(errorMessage);
          messages := messages + [Message(Model, [TextPart("Error: " + errorMessage)])];
      }
      isLoading := false;
    }

    /** `handleSendMessage`: an accepted send grows the log by exactly the user message and
        one reply, leaves earlier messages as they were, and ends with loading off. */
    method HandleSendMessage(prompt: string, attachedFile: Option<AttachedFile>, isImageGenerationMode: bool,
                             chat: seq<Segment> -> ChatReply, image: seq<Segment> -> ImageReply)
      requires Valid()
      modifies this
      ensures Valid()
      ensures IsEmptySend(prompt, attachedFile) ==> unchanged(this)
      ensures !IsEmptySend(prompt, attachedFile) ==>
                var outcome := ServiceOutcome(prompt, attachedFile, isImageGenerationMode, chat, image);
                && messages == old(messages) + [UserMessage(prompt, attachedFile), ReplyMessage(outcome)]
                && !isLoading
                && error == if outcome.Ok? then None else Some(outcome.error)
    {
      var accepted := BeginSend(prompt, attachedFile);
      if !accepted {
        return;
      }
      var response := CallService(prompt, attachedFile, isImageGenerationMode, chat, image);
      CompleteSend(response);
    }
  }
}
