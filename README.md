# chatbot-img message pipeline in Dafny

A model of the core of a browser chat client for Gemini. A prompt, an optional attached
file and a chat/image switch are turned into a provider request. The provider's answer is
mapped back into typed messages and appended to an append-only log. The model covers:

- the message data model (`Types`);
- the JavaScript string operations the client relies on: `startsWith`, `endsWith`, `trim`,
  `slice(3, -3)` and `split(',')` (`JsString`);
- file classification, building the attachment record from a read result, and data-URL
  splitting (`FileUtils`);
- request assembly and the chat and image response mappings, with their error collapsing
  (`GeminiService`). The assembly is an imperative method proved against a specification
  function;
- the conversation controller with `messages`, `isLoading` and `error` (`App`). It is a class
  whose `handleSendMessage` is split at its `await` into `BeginSend` and `CompleteSend`;
- the input composer's state and handlers with their disable rules (`ChatInput`). It is a
  class whose invariant is that image mode and an attachment never coexist;
- the wiring of the composer to the controller (`Session`): `isLoading` flows into the
  composer's guard, which is the only guard against a second send while one is pending;
- display: splitting text on the lazy fence pattern ```` /(```[\s\S]*?```)/g ````, the
  code/paragraph decision per piece, and the per-variant part renderer (`ChatMessage`).

Calls into code that is not modelled are function-typed parameters:

- the chat provider: `seq<Segment> -> ChatReply`;
- the image provider: `seq<Segment> -> ImageReply`;
- the browser's file reader: `ReadKind -> ReadOutcome`.

JavaScript semantics are written out where they matter:

- Truthiness of strings: a string is truthy when it is not `""`.
- A template literal prints a null `content` as `null` and a buffer as `[object ArrayBuffer]`.
- `split(',')[1]` may be `undefined`; it is modelled as an `Option`.
- The `data` and `mimeType` fields of the image response's inline data may be missing; each is an
  `Option`, and a missing one prints as `undefined` in the data URL.
- `slice(3, -3)` of a string shorter than six characters is empty.
- `trim` removes the white space and line terminators of ECMA-262.
- The regular-expression split follows the scan of `RegExp.prototype[@@split]` in ECMA-262.
  The scan keeps the end `p` of the last match and the index `q` being tried.

## Model

| member | source | states |
|---|---|---|
| Types.Tag | types.ts:2-20 | a part carries the tag "text", "image" or "file" exactly when it is that variant |
| Types.RoleName | types.ts:22-25 | the role is named "user" exactly for the user and "model" exactly for the model |
| JsString.TrimStart | components/ChatInput.tsx:32 | the result is a suffix of the input, what was dropped is white space, and the result does not start with white space |
| JsString.TrimEnd | components/ChatInput.tsx:32 | the result is a prefix of the input, what was dropped is white space, and the result does not end with white space |
| JsString.TrimIsInfix | components/ChatInput.tsx:32 | the trimmed string is the middle of the input between two runs of white space |
| JsString.TrimEnds | components/ChatInput.tsx:32 | neither end of a non-empty trimmed string is white space |
| JsString.TrimEmptyIffBlank | components/ChatInput.tsx:32 | `!prompt.trim()` holds exactly when every character of the prompt is white space |
| JsString.SliceInner3 | components/ChatMessage.tsx:29 | for six characters or more, the input is three characters, the result, and three characters; shorter inputs give the empty string |
| JsString.Split | utils/fileUtils.ts:42 | a split always has at least one piece |
| JsString.SplitJoin | utils/fileUtils.ts:42 | no piece of a split holds the separator, and joining the pieces with it gives the input back |
| JsString.SplitAfterFirst | utils/fileUtils.ts:42 | a separator-free front followed by the separator splits into that front and then the split of the rest |
| JsString.SplitFirstPiece | utils/fileUtils.ts:42 | the first piece ends at the first separator |
| JsString.SplitNoSeparator | utils/fileUtils.ts:42 | a string without the separator splits into itself alone |
| FileUtils.IsTextFileExamples | utils/fileUtils.ts:4-10 | text/plain, text/csv and application/json are text; image/png and application/pdf are not |
| FileUtils.ImagesAreBinary | utils/fileUtils.ts:4-10 | no image/ MIME type is classified as text |
| FileUtils.ReadKindFor | utils/fileUtils.ts:32-36 | a file is read as text exactly when its MIME type is a text type, and as a data URL otherwise |
| FileUtils.ReadFile | utils/fileUtils.ts:12-37 | a reader error is passed on; a missing or empty result fails with "Failed to read file."; otherwise the record has the file's name and MIME type, `isText` from the classifier, and the read result as both `url` and `content` |
| FileUtils.TextFileUrlIsRawText | utils/fileUtils.ts:24-26 | for a text file the record's `url` is the raw text, not a data URL |
| FileUtils.EmptyFileRejected | utils/fileUtils.ts:18-19 | an empty or missing read result, an empty text file included, is rejected with "Failed to read file." |
| FileUtils.DataUrlPayload | utils/fileUtils.ts:42 | the payload is absent exactly when the URL has no comma, and a present payload holds no comma |
| FileUtils.FileToGenerativePart | utils/fileUtils.ts:40-51 | it succeeds exactly for a `data:` URL, taking the payload from the URL and the MIME type from the record; otherwise it fails with the not-a-data-URL message |
| FileUtils.PayloadBetweenCommas | utils/fileUtils.ts:42 | the payload is exactly the text between the first comma and the next comma or the end |
| FileUtils.DataUrl | services/geminiService.ts:74 | the URL built for a generated image starts with `data:` |
| FileUtils.DataUrlRoundTrip | utils/fileUtils.ts:41-42 | taking the payload out of `data:<mime>;base64,<d>` gives back `d` when neither `mime` nor `d` holds a comma |
| FileUtils.BinaryReadConverts | utils/fileUtils.ts:32-47 | assuming the reader returns a data URL for a binary file, as `readAsDataURL` does, the record converts to inline data carrying the file's own MIME type |
| GeminiService.ContentString | services/geminiService.ts:24 | a string content prints as itself, null as "null" and a buffer as "[object ArrayBuffer]" |
| GeminiService.ComposeParts | services/geminiService.ts:16-34 | the parts built by pushing and by appending to the first part equal the request parts stated by input shape |
| GeminiService.PromptComesFirst | services/geminiService.ts:17-19 | with a non-empty prompt the first part is a text part starting with the prompt, and equal to it unless a text file was appended |
| GeminiService.TextAttachmentSinglePart | services/geminiService.ts:22-29 | a text file leaves exactly one part, the prompt followed by the framed content, or the framed content alone for an empty prompt |
| GeminiService.TextAttachmentExample | services/geminiService.ts:24-26 | "Hi" with notes.txt holding "line1" gives the single part "Hi" followed by "\n\n--- File Content: notes.txt ---\nline1" |
| GeminiService.BinaryAttachmentParts | services/geminiService.ts:30-33 | a binary file adds one inline-data part after any prompt part; without a prompt there is one part and no text part |
| GeminiService.MapChatReply | services/geminiService.ts:42-48 | a response becomes a model message with one text part holding the text verbatim; every failure becomes "Failed to get response from Gemini." |
| GeminiService.SendMessageToGemini | services/geminiService.ts:13-50 | the result is the provider's mapped answer to the composed parts, or the conversion error |
| GeminiService.ChatOutcomes | services/geminiService.ts:13-50 | a chat send ends in a one-text-part model message, the conversion error (exactly when conversion fails) or the collapsed provider error |
| GeminiService.ConversionErrorEscapes | services/geminiService.ts:31-36 | a binary file without a data URL fails with the conversion message whatever the provider would answer |
| GeminiService.ImageAttempt | services/geminiService.ts:66-80 | a response without inline data raises the refusal message; a transport failure passes its own error on |
| GeminiService.GenerateImageWithGemini | services/geminiService.ts:52-85 | an empty prompt fails with the prompt-required message; otherwise the provider is asked with the prompt as the only text part, and the call succeeds exactly when the response has inline data, giving one image part with the data URL and the prompt as alt text (a missing data or MIME type field prints as "undefined"); every other outcome is "Failed to generate image." |
| GeminiService.MissingMimeTypePrintsUndefined | services/geminiService.ts:68-74 | inline data without a MIME type gives the URL "data:undefined;base64," followed by the data |
| GeminiService.ImageExample | services/geminiService.ts:66-77 | `QQ==` of type image/png for "a cat" gives the URL "data:image/png;base64,QQ==" with alt "a cat" |
| GeminiService.RefusalLooksLikeFailure | services/geminiService.ts:78-84 | a refusal and a transport failure surface as the same "Failed to generate image." |
| GeminiService.GeneratedImageRoundTrip | services/geminiService.ts:74 | when the response carries both fields and neither holds a comma, converting a generated image's URL back gives the original data and MIME type |
| ChatMessage.FindFence | components/ChatMessage.tsx:23 | the result is the first run of three backticks at or after the start index, or none exists |
| ChatMessage.MatchAt | components/ChatMessage.tsx:23 | the lazy pattern matches at an index exactly when a fence starts there and another starts three or more later, and it ends after the first such fence |
| ChatMessage.SplitFromShape | components/ChatMessage.tsx:23 | the scan yields alternating text and captured blocks whose concatenation is the scanned text |
| ChatMessage.SplitFencesSpec | components/ChatMessage.tsx:23 | concatenating the pieces gives the content back; odd pieces are fenced blocks, even pieces contain none, the pattern matches at no index inside an even piece, and each block is the match starting right after the text before it |
| ChatMessage.SplitFromLeftmost | components/ChatMessage.tsx:23 | the scan puts every block at the first index where the pattern matches |
| ChatMessage.SplitUnique | components/ChatMessage.tsx:23 | any pieces that rebuild the scanned text and lie where the scan finds matches are the scan's own result |
| ChatMessage.SplitFencesUnique | components/ChatMessage.tsx:23 | the split is the only decomposition of the content into pieces that rebuild it with each block at the leftmost match |
| ChatMessage.NoFenceOnePiece | components/ChatMessage.tsx:23 | text without a run of three backticks is one piece, itself |
| ChatMessage.FormattedText | components/ChatMessage.tsx:22-36 | there is one block per piece |
| ChatMessage.FenceStarts | components/ChatMessage.tsx:28 | a piece with a fence at index 0 passes `startsWith('```')` |
| ChatMessage.FenceEnds | components/ChatMessage.tsx:28 | a piece with a fence at its last three characters passes `endsWith('```')` |
| ChatMessage.FencedBlockIsCode | components/ChatMessage.tsx:28-30 | a fenced block is fence, inner text without a fence, fence, and is shown as code holding the trimmed inner text |
| ChatMessage.CapturedPiecesAreCode | components/ChatMessage.tsx:27-31 | every captured piece is fence, inner text without a fence, fence, and is shown as code holding the trimmed inner text |
| ChatMessage.PlainPiecesAreVerbatim | components/ChatMessage.tsx:27-32 | a piece between captures is shown as an empty code block exactly when it is a lone run of three to five backticks, and otherwise verbatim as a paragraph |
| ChatMessage.FencedAtBothEnds | components/ChatMessage.tsx:28 | text holding no fenced block starts and ends with three backticks exactly when it is a run of three to five backticks |
| ChatMessage.PlainTextOneParagraph | components/ChatMessage.tsx:22-36 | text without a run of three backticks is one paragraph holding all of it |
| ChatMessage.FencedSplitExample | components/ChatMessage.tsx:23 | "a```x```b" splits into "a", "```x```" and "b" |
| ChatMessage.CodePieceExample | components/ChatMessage.tsx:28-30 | the block "```x```" is shown as the code "x" |
| ChatMessage.FencedExample | components/ChatMessage.tsx:22-36 | "a```x```b" is shown as paragraph "a", code "x", paragraph "b" |
| ChatMessage.LoneFenceExample | components/ChatMessage.tsx:22-36 | a lone "```" is shown as an empty code block |
| ChatMessage.RenderMessage | components/ChatMessage.tsx:73 | a message shows one view per part |
| ChatMessage.RenderInListOrder | components/ChatMessage.tsx:73 | views follow the order of the parts: rendering distributes over concatenation of parts |
| ChatMessage.ImageAltText | components/ChatMessage.tsx:43-44 | an image is shown at its URL, with its alt text as written when that is non-empty and "generated image" otherwise |
| ChatMessage.FilePartView | components/ChatMessage.tsx:45-54 | a file part is shown as an image captioned with its name exactly for image/ MIME types, otherwise as a chip with its name |
| App.Greeting | App.tsx:11-16 | the greeting is one model message with one text part |
| App.ErrorText | App.tsx:49 | the error text is never empty and is the exception's message whenever that is non-empty |
| App.UserMessageShape | App.tsx:27-36 | the user message is empty exactly for an empty send; it holds the prompt verbatim as its first part when non-empty and the file part last when a file is attached |
| App.WhitespacePromptProceeds | App.tsx:22 | a prompt of white space alone is not an empty send and becomes a text part as it is |
| App.CallService | App.tsx:40-46 | the answer comes from the image service in image mode and from the chat service otherwise; an answer is a non-empty model message and an error is its own error text |
| App.ServiceOutcomes | App.tsx:40-51 | every service answer is a one-part model message and every error is one of four non-empty messages, so the fallback text never shows |
| App.ImageModeIgnoresAttachment | App.tsx:42-46 | in image mode neither the attachment nor the chat provider affects the outcome |
| App.ErrorReplyShape | App.tsx:48-51 | a failure is logged as one model text part reading "Error: " followed by the error text |
| App.Conversation.constructor | App.tsx:11-18 | the log starts as the greeting alone, not loading, with no error |
| App.Conversation.BeginSend | App.tsx:21-38 | an empty send changes nothing; otherwise loading starts, the error is cleared and the user message is appended |
| App.Conversation.CompleteSend | App.tsx:40-54 | the answer or the error reply is appended, the error is recorded on failure, and loading ends on every path |
| App.Conversation.HandleSendMessage | App.tsx:21-55 | an accepted send grows the log by exactly the user message and one reply, keeps earlier messages, and ends not loading with the error set exactly on failure |
| ChatInput.CanSendIff | components/ChatInput.tsx:32 | a send goes out exactly when nothing is loading and the prompt has a non-white-space character or a file is attached |
| ChatInput.SentIsNeverEmpty | components/ChatInput.tsx:31-33 | whatever the composer sends passes the controller's untrimmed emptiness check |
| ChatInput.BlankPromptBlocked | components/ChatInput.tsx:32 | a prompt of white space alone without a file is blocked |
| ChatInput.LetteredPromptSends | components/ChatInput.tsx:32 | the prompt " a " without a file is let through |
| ChatInput.ChatInputState.constructor | components/ChatInput.tsx:13-15 | the prompt starts empty, with no file and image mode off |
| ChatInput.ChatInputState.SetPrompt | components/ChatInput.tsx:90 | typing replaces the prompt and nothing else |
| ChatInput.ChatInputState.HandleSend | components/ChatInput.tsx:31-39 | a request goes out exactly when the guard passes, which is also exactly when the send button is enabled, carrying the untrimmed prompt, the file and the mode; then the prompt and file are cleared and the mode kept; otherwise nothing changes |
| ChatInput.ChatInputState.HandleKeyDown | components/ChatInput.tsx:41-46 | Enter without Shift behaves as the send handler; any other key changes nothing |
| ChatInput.ChatInputState.RemoveAttachment | components/ChatInput.tsx:48-53 | the attachment is cleared and nothing else changes |
| ChatInput.ChatInputState.ClickToggle | components/ChatInput.tsx:97-101 | the mode flips unless loading or a file is attached, in which case nothing changes |
| ChatInput.ChatInputState.HandleFileChange | components/ChatInput.tsx:18-29 | a read file replaces the attachment; a disabled input, no file or a failed read leaves it as it was |
| Session.ChatSession.constructor | App.tsx:11-18 | the page starts with the greeting alone, not loading and without an error, an empty composer with no file and image mode off, and nothing pending |
| Session.ChatSession.PressSend | App.tsx:68 | while a reply is pending, or when the guard refuses, composer, log and pending send are unchanged; a send the guard lets through appends the user message, starts loading, clears the error, empties the composer but keeps its mode, and becomes the pending send |
| Session.ChatSession.ReplyArrives | App.tsx:40-54 | the pending send's reply or error reply is appended, the error becomes the failure's text and is otherwise kept, loading ends and nothing stays pending, keeping roles alternating |
| Session.RapidDoubleSend | components/ChatInput.tsx:32 | a second send while the first is pending is ignored: the log grows by one user message and one reply |

## Left out

- The network calls to the Gemini models are not modelled. Each provider is a function parameter that returns a response or a failure.
- The `API_KEY` check at module load is not modelled. It is process configuration.
- The unused model lookup at the start of `sendMessageToGemini` is not modelled.
- The browser file reader's callbacks and promise plumbing are not modelled. The reader is a function parameter that gives a result or an error.
- `HandleFileChange` is one atomic step. The race between a pending file read and a mode toggle needs asynchronous interleaving, which the model does not have. So the model does not show that image mode and an attachment can coexist after such a race.
- JSX, CSS classes, icons, the code block's copy button, and the clearing of the hidden file input's value are not modelled. They are presentation.
- `Header` and `ChatHistory` are not modelled. They are static markup and a scroll effect.
- `console.error` logging is not modelled.
- The file part built from an attachment keeps only the `FilePart` fields of `{ type: 'file', ...attachedFile }`. The spread also copies `content` and `isText` onto the part, and nothing reads them.
- `GeminiService.MapChatReply` treats `response.text` as a string. The library may give `undefined`, which the model does not represent.
- Errors thrown by the provider library never reach the controller. The services replace them with their own messages, so only four messages can arrive. `App.ErrorText` still models the fallback for an empty message.
- Strings are sequences of characters, not of UTF-16 code units. The characters the code searches for (comma, backtick, white space) are in the basic plane, so the splits and slices agree.
- The empty-match branch of the split scan is left out, because the fence pattern cannot match the empty string.
- `FileUtils.DataUrlRoundTrip` is stated for a comma-free MIME type as well as comma-free data. A comma inside the MIME type moves the first comma, and the payload changes.
