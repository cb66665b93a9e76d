/** The input composer: the prompt being typed, the attached file and the image-generation
    switch, with the handlers that change them and the rules that disable its controls.
    `isLoading` belongs to the conversation and reaches the composer as an argument. */
module ChatInput {
  import opened Types
  import opened JsString
  import opened FileUtils

  /** The arguments of one `onSendMessage` call. */
  datatype SendRequest = SendRequest(prompt: string, attachedFile: Option<AttachedFile>, isImageGenerationMode: bool)

  /** The guard of `handleSend`, which is also the rule enabling the send button. */
  predicate CanSend(isLoading: bool, prompt: string, attachedFile: Option<AttachedFile>) {
    !(isLoading || (Trim(prompt) == [] && attachedFile.None?))
  }

  /** A send goes out exactly when nothing is loading and the prompt has a character other
      than white space or a file is attached. */
  lemma CanSendIff(isLoading: bool, prompt: string, attachedFile: Option<AttachedFile>)
    ensures CanSend(isLoading, prompt, attachedFile) <==>
              !isLoading && (attachedFile.Some? || exists i :: 0 <= i < |prompt| && !IsWhitespace(prompt[i]))
  {
    TrimEmptyIffBlank(prompt);
  }

  /** Whatever the composer lets through, the controller accepts: its own, untrimmed check
      is weaker. */
  lemma SentIsNeverEmpty(isLoading: bool, prompt: string, attachedFile: Option<AttachedFile>)
    requires CanSend(isLoading, prompt, attachedFile)
    ensures prompt != [] || attachedFile.Some?
  {
  }

  /** A prompt of spaces, a newline and a tab with no file attached is not sent. */
  lemma BlankPromptBlocked()
    ensures !CanSend(false, " \n\t", None)
  {
    var blank := " \n\t";
    assert AllWhitespace(blank) by {
      forall i | 0 <= i < |blank| ensures IsWhitespace(blank[i]) {
        assert blank[i] in {' ', '\n', '\t'};
      }
    }
    TrimEmptyIffBlank(blank);
  }

  /** A prompt with one letter between spaces is sent, untrimmed. */
  lemma LetteredPromptSends()
    ensures CanSend(false, " a ", None)
  {
    var lettered := " a ";
    assert !IsWhitespace(lettered[1]) by { assert lettered[1] == 'a'; }
    TrimEmptyIffBlank(lettered);
  }

  /** Enter without Shift sends; any other key press does not. */
  predicate IsSendKey(key: string, shiftKey: bool) {
    key == "Enter" && !shiftKey
  }

  class ChatInputState {
    var prompt: string
    var attachedFile: Option<AttachedFile>
    var isImageGenerationMode: bool

    /** Image mode and an attachment never coexist while every change goes through enabled
        controls: attaching is off in image mode, and the switch is off while a file is
        attached. */
    ghost predicate Valid()
      reads this
    {
      !(isImageGenerationMode && attachedFile.Some?)
    }

    constructor ()
      ensures Valid()
      ensures prompt == [] && attachedFile == None && !isImageGenerationMode
    {
      prompt := [];
      attachedFile := None;
      isImageGenerationMode := false;
    }

    /** The attach button and the file input are disabled in image mode or while loading. */
    predicate AttachDisabled(isLoading: bool)
      reads this
    {
      isImageGenerationMode || isLoading
    }

    /** The mode switch is disabled while loading or while a file is attached. */
    predicate ToggleDisabled(isLoading: bool)
      reads this
    {
      isLoading || attachedFile.Some?
    }

    /** The send button is disabled exactly when `handleSend` would do nothing. */
    predicate SendDisabled(isLoading: bool)
      reads this
    {
      !CanSend(isLoading, prompt, attachedFile)
    }

    /** The text area's `onChange`. */
    method SetPrompt(text: string)
      requires Valid()
      modifies this
      ensures Valid()
      ensures prompt == text
      ensures attachedFile == old(attachedFile) && isImageGenerationMode == old(isImageGenerationMode)
    {
      prompt := text;
    }

    /** `handleSend`: when the guard passes, hand the untrimmed prompt, the attachment and the
        mode to the controller, then clear the prompt and the attachment and keep the mode. */
    method HandleSend(isLoading: bool) returns (sent: Option<SendRequest>)
      requires Valid()
      modifies this
      ensures Valid()
      ensures sent.Some? <==> CanSend(isLoading, old(prompt), old(attachedFile))
      ensures sent.Some? <==> !old(SendDisabled(isLoading))
      ensures sent.None? ==> unchanged(this)
      ensures sent.Some? ==>
                && sent.value == SendRequest(old(prompt), old(attachedFile), old(isImageGenerationMode))
                && prompt == [] && attachedFile == None
                && isImageGenerationMode == old(isImageGenerationMode)
    {
      if !CanSend(isLoading, prompt, attachedFile) {
        return None;
      }
      sent := Some(SendRequest(prompt, attachedFile, isImageGenerationMode));
      prompt := [];
      attachedFile := None;
    }

    /** `handleKeyDown`: Enter without Shift behaves as `handleSend`. */
    method HandleKeyDown(key: string, shiftKey: bool, isLoading: bool) returns (sent: Option<SendRequest>)
      requires Valid()
      modifies this
      ensures Valid()
      ensures !IsSendKey(key, shiftKey) ==> sent.None? && unchanged(this)
      ensures IsSendKey(key, shiftKey) ==> (sent.Some? <==> CanSend(isLoading, old(prompt), old(attachedFile)))
      ensures sent.None? ==> unchanged(this)
      ensures sent.Some? ==>
                && sent.value == SendRequest(old(prompt), old(attachedFile), old(isImageGenerationMode))
                && prompt == [] && attachedFile == None
                && isImageGenerationMode == old(isImageGenerationMode)
    {
      if key == "Enter" && !shiftKey {
        sent := HandleSend(isLoading);
      } else {
        sent := None;
      }
    }

    /** `removeAttachment`: only the attachment is cleared. */
    method RemoveAttachment()
      requires Valid()
      modifies this
      ensures Valid()
      ensures attachedFile == None
      ensures prompt == old(prompt) && isImageGenerationMode == old(isImageGenerationMode)
    {
      attachedFile := None;
    }

    /** A click on the mode switch: it flips the mode unless the switch is disabled. */
    method ClickToggle(isLoading: bool)
      requires Valid()
      modifies this
      ensures Valid()
      ensures old(ToggleDisabled(isLoading)) ==> unchanged(this)
      ensures !old(ToggleDisabled(isLoading)) ==>
                && isImageGenerationMode == !old(isImageGenerationMode)
                && prompt == old(prompt) && attachedFile == old(attachedFile)
    {
      if !(isLoading || attachedFile.Some?) {
        isImageGenerationMode := !isImageGenerationMode;
      }
    }

    /** `handleFileChange` on the file input, which delivers no change while disabled: the
        chosen file replaces the attachment when it is read; a failed read, or no file,
        leaves the attachment as it was. */
    method HandleFileChange(isLoading: bool, selected: Option<FileInfo>, read: ReadKind -> ReadOutcome)
      requires Valid()
      modifies this
      ensures Valid()
      ensures prompt == old(prompt) && isImageGenerationMode == old(isImageGenerationMode)
      ensures attachedFile ==
                if !old(AttachDisabled(isLoading)) && selected.Some? && ReadFile(selected.value, read).Ok?
                then Some(ReadFile(selected.value, read).value)
                else old(attachedFile)
    {
      if isImageGenerationMode || isLoading || selected.None? {
        return;
      }
      var fileData := ReadFile(selected.value, read);
      if fileData.Ok? {
        attachedFile := Some(fileData.value);
      }
    }
  }
}
