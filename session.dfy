/** The page as a whole: the composer hands its sends to the conversation controller and
    receives the controller's `isLoading`. A send is split at the service call: the
    request stays pending until its reply arrives. The composer's guard is the only thing
    that keeps a second send out while one is pending. */
module Session {
  import opened Types
  import opened GeminiService
  import opened App
  import opened ChatInput

  /** The greeting, then user and model messages by turns. */
  ghost predicate Alternates(ms: seq<Message>) {
    forall i :: 0 <= i < |ms| ==> ms[i].role == (if i % 2 == 0 then Model else User)
  }

  /** A message whose role is the next in turn keeps the roles alternating. */
  lemma AlternatesAppend(ms: seq<Message>, m: Message)
    requires Alternates(ms) && m.role == (if |ms| % 2 == 0 then Model else User)
    ensures Alternates(ms + [m])
  {
  }

  class ChatSession {
    const input: ChatInputState
    const conversation: Conversation
    /** The send whose service call has not settled yet. */
    var pending: Option<SendRequest>

    ghost predicate Valid()
      reads this, input, conversation
    {
      && input.Valid()
      && conversation.Valid()
      && Alternates(conversation.messages)
      && (conversation.isLoading <==> pending.Some?)
      && (pending.Some? <==> |conversation.messages| % 2 == 0)
    }

    constructor ()
      ensures Valid() && fresh(input) && fresh(conversation)
      ensures conversation.messages == [Greeting()] && !conversation.isLoading && conversation.error == None
      ensures input.prompt == [] && input.attachedFile == None && !input.isImageGenerationMode
      ensures pending == None
    {
      input := new ChatInputState();
      conversation := new Conversation();
      pending := None;
    }

    /** The send button or Enter: while a reply is pending nothing happens at all; otherwise
        a send the composer lets through is taken up by the controller, which appends the
        user message and starts loading. */
    method PressSend()
      requires Valid()
      modifies this, input, conversation
      ensures Valid()
      ensures old(conversation.isLoading) ==> unchanged(input, conversation) && pending == old(pending)
      ensures !CanSend(old(conversation.isLoading), old(input.prompt), old(input.attachedFile)) ==>
                unchanged(input, conversation) && pending == old(pending)
      ensures CanSend(old(conversation.isLoading), old(input.prompt), old(input.attachedFile)) ==>
                && conversation.messages == old(conversation.messages) + [UserMessage(old(input.prompt), old(input.attachedFile))]
                && conversation.isLoading && conversation.error == None
                && input.prompt == [] && input.attachedFile == None
                && input.isImageGenerationMode == old(input.isImageGenerationMode)
                && pending == Some(SendRequest(old(input.prompt), old(input.attachedFile), old(input.isImageGenerationMode)))
    {
      ghost var before := conversation.messages;
      var sent := input.HandleSend(conversation.isLoading);
      if sent.Some? {
        SentIsNeverEmpty(false, sent.value.prompt, sent.value.attachedFile);
        var accepted := conversation.BeginSend(sent.value.prompt, sent.value.attachedFile);
        AlternatesAppend(before, UserMessage(sent.value.prompt, sent.value.attachedFile));
        pending := sent;
      }
    }

    /** The pending service call settles: its reply, or the error text, is appended and
        loading ends. */
    method ReplyArrives(chat: seq<Segment> -> ChatReply, image: seq<Segment> -> ImageReply)
      requires Valid() && pending.Some?
      modifies this, conversation
      ensures Valid()
      ensures var req := old(pending).value;
        var outcome := ServiceOutcome(req.prompt, req.attachedFile, req.isImageGenerationMode, chat, image);
        && conversation.messages == old(conversation.messages) + [ReplyMessage(outcome)]
        && conversation.error == (if outcome.Ok? then old(conversation.error) else Some(outcome.error))
      ensures !conversation.isLoading && pending == None
    {
      var req := pending.value;
      ghost var before := conversation.messages;
      var response := CallService(req.prompt, req.attachedFile, req.isImageGenerationMode, chat, image);
      conversation.CompleteSend(response);
      AlternatesAppend(before, ReplyMessage(response));
      pending := None;
    }
  }

  /** Two sends in quick succession: the second arrives while the first is pending and is
      ignored, so the log holds one user message and, once the reply arrives, one reply. */
  method RapidDoubleSend(s: ChatSession, second: string,
                         chat: seq<Segment> -> ChatReply, image: seq<Segment> -> ImageReply)
    requires s.Valid() && !s.conversation.isLoading
    requires CanSend(false, s.input.prompt, s.input.attachedFile)
    modifies s, s.input, s.conversation
    ensures s.Valid()
    ensures |s.conversation.messages| == |old(s.conversation.messages)| + 2
    ensures s.input.prompt == second
  {
    s.PressSend();
    s.input.SetPrompt(second);
    s.PressSend();
    s.ReplyArrives(chat, image);
  }
}
