/** File ingestion: classifying a MIME type as text or binary, building the attachment
    record from what the browser's file reader produced, and turning a binary attachment
    into an inline-data request part. */
module FileUtils {
  import opened Types
  import opened JsString

  const ReadFailedMsg: string := "Failed to read file."
  const NotDataUrlMsg: string := "Could not convert file to generative part: URL is not a data URL."

  /** True for MIME types whose content is inlined into the prompt as text. */
  predicate IsTextFile(mimeType: string) {
    StartsWith(mimeType, "text/")
    || mimeType == "application/json"
    || mimeType == "application/javascript"
    || mimeType == "application/xml"
    || mimeType == "application/csv"
  }

  lemma IsTextFileExamples()
    ensures IsTextFile("text/plain") && IsTextFile("text/csv") && IsTextFile("application/json")
    ensures !IsTextFile("image/png") && !IsTextFile("application/pdf")
  {
    assert "text/plain"[..5] == "text/";
    assert "text/csv"[..5] == "text/";
    assert "image/png"[..5][0] != "text/"[0];
    assert "application/pdf"[..5][0] != "text/"[0];
  }

  /** Every image type is binary: images are always read as data URLs and sent as inline
      data, never inlined as text. */
  lemma ImagesAreBinary(mimeType: string)
    requires StartsWith(mimeType, "image/")
    ensures !IsTextFile(mimeType)
  {
    assert mimeType[0] == "image/"[0];
  }

  /** The file the user picked, as far as the model needs it. */
  datatype FileInfo = FileInfo(name: string, mimeType: string)

  /** The two ways the reader is asked to read a file. */
  datatype ReadKind = AsText | AsDataUrl

  /** What the reader reported: `onload` with its `result`, or `onerror`. */
  datatype ReadOutcome = Loaded(result: Option<string>) | ReadError(reason: string)

  function ReadKindFor(mimeType: string): (k: ReadKind)
    ensures k == AsText <==> IsTextFile(mimeType)
  {
    if IsTextFile(mimeType) then AsText else AsDataUrl
  }

  /** `readFile`: the reader is asked for text or for a data URL according to the MIME type;
      a missing or empty result is rejected, otherwise the result becomes both `url` and
      `content` of the attachment. */
  function ReadFile(file: FileInfo, read: ReadKind -> ReadOutcome): (r: Result<AttachedFile>)
    ensures read(ReadKindFor(file.mimeType)).ReadError? ==> r == Err(read(ReadKindFor(file.mimeType)).reason)
    ensures read(ReadKindFor(file.mimeType)).Loaded? ==>
              (r.Err? <==> read(ReadKindFor(file.mimeType)).result in {None, Some([])})
    ensures r.Err? && read(ReadKindFor(file.mimeType)).Loaded? ==> r.error == ReadFailedMsg
    ensures r.Ok? ==>
              && read(ReadKindFor(file.mimeType)) == Loaded(Some(r.value.url))
              && r.value.url != []
              && r.value.content == StringContent(r.value.url)
              && r.value.name == file.name
              && r.value.mimeType == file.mimeType
              && r.value.isText == IsTextFile(file.mimeType)
  {
    var isText := IsTextFile(file.mimeType);
    match read(if isText then AsText else AsDataUrl)
    case ReadError(reason) => Err(reason)
    case Loaded(result) =>
      if result == None || result == Some([]) then Err(ReadFailedMsg)
      else Ok(AttachedFile(file.name, file.mimeType, result.value, StringContent(result.value), isText))
  }

  /** A text file's `url` is the raw text the reader returned, not a data URL. */
  lemma TextFileUrlIsRawText(file: FileInfo, read: ReadKind -> ReadOutcome, text: string)
    requires IsTextFile(file.mimeType)
    requires read(AsText) == Loaded(Some(text)) && text != []
    ensures ReadFile(file, read) == Ok(AttachedFile(file.name, file.mimeType, text, StringContent(text), true))
  {
  }

  /** An empty text file is rejected, like a read with no result. */
  lemma EmptyFileRejected(file: FileInfo, read: ReadKind -> ReadOutcome)
    requires read(ReadKindFor(file.mimeType)) in {Loaded(None), Loaded(Some([]))}
    ensures ReadFile(file, read) == Err(ReadFailedMsg)
  {
  }

  /** The `inlineData` request part: the payload may be absent (`undefined`). */
  datatype InlineData = InlineData(data: Option<string>, mimeType: string)

  /** `file.url.split(',')[1]`: the field between the first and the second comma, or none
      when there is no comma. */
  function DataUrlPayload(url: string): (d: Option<string>)
    ensures d.None? <==> ',' !in url
    ensures d.Some? ==> ',' !in d.value
  {
    var fields := Split(url, ',');
    SplitJoin(url, ',');
    if |fields| > 1 then Some(fields[1])
    else
      assert url == fields[0];
      None
  }

  /** `fileToGenerativePart`: a `data:` URL becomes inline data whose MIME type is taken from
      the attachment record, not from the URL; anything else is an error. */
  function FileToGenerativePart(file: AttachedFile): (r: Result<InlineData>)
    ensures r.Ok? <==> StartsWith(file.url, "data:")
    ensures r.Ok? ==> r.value == InlineData(DataUrlPayload(file.url), file.mimeType)
    ensures r.Err? ==> r.error == NotDataUrlMsg
  {
    if StartsWith(file.url, "data:") then Ok(InlineData(DataUrlPayload(file.url), file.mimeType))
    else Err(NotDataUrlMsg)
  }

  /** The payload is exactly the text after the first comma up to the next comma or the end. */
  lemma {:induction false} PayloadBetweenCommas(front: string, d: string, rest: string)
    requires ',' !in front && ',' !in d
    requires rest == [] || rest[0] == ','
    ensures DataUrlPayload(front + "," + d + rest) == Some(d)
  {
    SplitAfterFirst(front, d + rest, ',');
    assert front + "," + d + rest == front + [','] + (d + rest);
    SplitFirstPiece(d, rest, ',');
  }

  /** The data URL the image service builds. */
  function DataUrl(mimeType: string, data: string): (url: string)
    ensures StartsWith(url, "data:")
  {
    "data:" + mimeType + ";base64," + data
  }

  /** Round trip: taking the payload out of `data:<mime>;base64,<d>` gives back `d`, as long
      as neither the MIME type nor `d` holds a comma. */
  lemma {:induction false} DataUrlRoundTrip(mimeType: string, d: string)
    requires ',' !in mimeType && ',' !in d
    ensures DataUrlPayload(DataUrl(mimeType, d)) == Some(d)
  {
    var front := "data:" + mimeType + ";base64";
    assert DataUrl(mimeType, d) == front + "," + d + [];
    assert ',' !in front by {
      forall i | 0 <= i < |front| ensures front[i] != ',' {
        if i >= 5 && i < 5 + |mimeType| { assert front[i] == mimeType[i - 5]; }
      }
    }
    PayloadBetweenCommas(front, d, []);
  }

  /** A binary attachment converts to inline data carrying its own MIME type, provided the
      reader returned a data URL, as `readAsDataURL` does; the reader is a parameter of the
      model, so that is assumed here rather than proved. */
  lemma BinaryReadConverts(file: FileInfo, read: ReadKind -> ReadOutcome)
    requires !IsTextFile(file.mimeType)
    requires ReadFile(file, read).Ok?
    requires StartsWith(ReadFile(file, read).value.url, "data:")
    ensures FileToGenerativePart(ReadFile(file, read).value).Ok?
    ensures FileToGenerativePart(ReadFile(file, read).value).value.mimeType == file.mimeType
  {
  }
}
