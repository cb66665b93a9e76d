/** The message/part data model of the chat client: message parts, messages and the
    attachment record, plus the Option/Result wrappers the rest of the model uses. */
module Types {

  datatype Option<+T> = None | Some(value: T)

  /** A value or the message of the error the source throws. */
  datatype Result<+T> = Ok(value: T) | Err(error: string)

  /** Who wrote a message: `'user' | 'model'`. */
  datatype Role = User | Model

  /** A closed three-way tagged union of message parts. */
  datatype MessagePart =
    | TextPart(content: string)
    | ImagePart(url: string, alt: Option<string>)
    | FilePart(name: string, mimeType: string, url: string)

  /** A role-tagged, ordered sequence of parts. */
  datatype Message = Message(role: Role, parts: seq<MessagePart>)

  /** The `content` of an attachment: a string, raw binary, or null. */
  datatype FileContent =
    | StringContent(text: string)
    | BufferContent(bytes: seq<bv8>)
    | NullContent

  datatype AttachedFile = AttachedFile(
    name: string,
    mimeType: string,
    url: string,
    content: FileContent,
    isText: bool)

  /** The `type` discriminator each part carries. */
  function Tag(p: MessagePart): (t: string)
    ensures t == "text" <==> p.TextPart?
    ensures t == "image" <==> p.ImagePart?
    ensures t == "file" <==> p.FilePart?
  {
    match p
    case TextPart(_) => "text"
    case ImagePart(_, _) => "image"
    case FilePart(_, _, _) => "file"
  }

  /** The wire name of a role. */
  function RoleName(r: Role): (s: string)
    ensures s == "user" <==> r == User
    ensures s == "model" <==> r == Model
  {
    match r
    case User => "user"
    case Model => "model"
  }

  /** The file part `{ type: 'file', ...attachedFile }` as seen through the `FilePart` type. */
  function FilePartOf(f: AttachedFile): MessagePart {
    FilePart(f.name, f.mimeType, f.url)
  }

  /** A message that can be shown: it has at least one part. */
  predicate NonEmpty(m: Message) {
    |m.parts| > 0
  }
}
