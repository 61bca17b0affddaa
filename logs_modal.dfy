/** The log parser of the admin console's log viewer (`parseContent`) and the
    text its copy button builds (`handleCopy`). A captured log entry holds a
    request part with a JSON request body after the "【Request Body】:" marker,
    followed by the raw response after the "【Response Body】:" marker. The
    parser never raises: every failure gives the empty document.

    `JSON.parse` and `JSON.stringify` are library calls and enter as the
    parameters `parse` (None when it throws a SyntaxError) and `stringify`. */
module LogsModal {
  import opened Outcomes
  import opened JsStrings
  import opened JsValues

  const ResponseMarker: string := "【Response Body】:"
  const RequestMarker: string := "【Request Body】:"

  /** What `parseContent` can throw: the two errors it raises itself, the
      SyntaxError of `JSON.parse`, and the TypeError of reading a property of
      null or undefined or calling `trim` on a non-string. */
  datatype Failure = InvalidContentFormat | RequestBodyNotFound | SyntaxError | TypeError

  /** A normalised piece of message content. An image's url is whatever
      `item.image_url.url` held, `None` when it was undefined. */
  datatype ContentItem = Text(text: string) | Image(url: Option<Json>)

  /** A message: its role as found (`None` when undefined), its normalised
      content, and its other properties (`None` when there are none). */
  datatype Message = Message(role: Option<Json>, content: seq<ContentItem>, otherProps: Option<Fields>)

  datatype ParsedDocument = ParsedDocument(requestProps: Fields, messages: seq<Message>, response: string)

  const EmptyDocument: ParsedDocument := ParsedDocument([], [], "")

  /** Splits the log at the last Response marker into the request part before
      it and the response part after it. Without a marker `lastIndexOf` gives
      -1 and the request part is empty. */
  function SplitOnResponse(content: string): (parts: (string, string))
    ensures Contains(content, ResponseMarker) ==>
      content == parts.0 + ResponseMarker + parts.1 && !Contains(parts.1, ResponseMarker)
    ensures !Contains(content, ResponseMarker) ==> parts.0 == []
  {
    var lastIndex := LastIndexOf(content, ResponseMarker);
    var requestPart := Substring(content, 0, lastIndex);
    var responsePart := Substring(content, lastIndex + |ResponseMarker|, |content|);
    if lastIndex >= 0 then
      assert content == requestPart + ResponseMarker + responsePart by {
        assert content[lastIndex..lastIndex + |ResponseMarker|] == ResponseMarker;
        assert content == content[..lastIndex] + content[lastIndex..lastIndex + |ResponseMarker|]
          + content[lastIndex + |ResponseMarker|..];
      }
      assert !Contains(responsePart, ResponseMarker) by {
        forall j | OccursAt(responsePart, ResponseMarker, j) ensures false {
          OccursInSuffix(content, ResponseMarker, lastIndex + |ResponseMarker|, j);
        }
      }
      (requestPart, responsePart)
    else
      (requestPart, responsePart)
  }

  /** The first capture group of `/【Request Body】:([\s\S]*)/`: everything after
      the first Request marker, or `None` when the match fails. */
  function RequestBody(requestPart: string): (body: Option<string>)
    ensures body.None? <==> !Contains(requestPart, RequestMarker)
    ensures body.Some? ==> exists k ::
      && OccursAt(requestPart, RequestMarker, k)
      && (forall i :: 0 <= i < k ==> !OccursAt(requestPart, RequestMarker, i))
      && body.value == requestPart[k + |RequestMarker|..]
  {
    var k := IndexOf(requestPart, RequestMarker);
    if k < 0 then None else Some(requestPart[k + |RequestMarker|..])
  }

  /** Lines 37-42: the JSON value of the captured request body. A missing or
      blank body is "request body not found"; a body `JSON.parse` rejects is a
      SyntaxError. */
  function BodyJson(body: Option<string>, parse: string -> Option<Json>): (r: Result<Json, Failure>)
    ensures r.Err? ==> r.error == RequestBodyNotFound || r.error == SyntaxError
    ensures body.None? || Trim(body.value) == [] ==> r == Err(RequestBodyNotFound)
    ensures body.Some? && Trim(body.value) != [] && parse(Trim(body.value)).None? ==> r == Err(SyntaxError)
    ensures r.Ok? <==> body.Some? && Trim(body.value) != [] && parse(Trim(body.value)).Some?
    ensures r.Ok? ==> parse(Trim(body.value)) == Some(r.value)
  {
    match body
    case None => Err(RequestBodyNotFound)
    case Some(b) =>
      if Trim(b) == [] then Err(RequestBodyNotFound)
      else
        match parse(Trim(b))
        case None => Err(SyntaxError)
        case Some(json) => Ok(json)
  }

  /** Lines 27-42: the JSON value of the request body. */
  function RequestJson(content: string, parse: string -> Option<Json>): Result<Json, Failure> {
    if Trim(content) == [] then Err(InvalidContentFormat)
    else BodyJson(RequestBody(SplitOnResponse(content).0), parse)
  }

  /** Lines 50-57: one element of an array-valued `content`. */
  function NormalizeItem(item: Json, stringify: Json -> string): (r: Result<ContentItem, Failure>)
    ensures r.Err? ==> r.error == TypeError
  {
    match item
    case JStr(s) => Ok(Text(Trim(s)))
    case JNull => Err(TypeError)
    case _ =>
      var fields := OwnProperties(item);
      var kind := Get(fields, "type");
      if kind == Some(JStr("text")) then
        match Get(fields, "text")
        case Some(JStr(t)) => Ok(Text(Trim(t)))
        case _ => Err(TypeError)
      else if kind == Some(JStr("image_url")) then
        match Get(fields, "image_url")
        case None => Err(TypeError)
        case Some(image) =>
          if image == JNull then Err(TypeError)
          else Ok(Image(Get(OwnProperties(image), "url")))
      else
        Ok(Text(stringify(item)))
  }

  /** Lines 49-58: `content.map(...)`; the first item that throws aborts the
      whole map. */
  function NormalizeItems(items: seq<Json>, stringify: Json -> string): (r: Result<seq<ContentItem>, Failure>)
    ensures r.Err? ==> r.error == TypeError
    ensures r.Ok? ==> |r.value| == |items|
  {
    if items == [] then Ok([])
    else
      var first :- NormalizeItem(items[0], stringify);
      var rest :- NormalizeItems(items[1..], stringify);
      Ok([first] + rest)
  }

  /** Lines 48-59: a message's `content`, undefined when `None`. */
  function NormalizeContent(content: Option<Json>, stringify: Json -> string): (r: Result<seq<ContentItem>, Failure>)
    ensures r.Err? ==> r.error == TypeError
  {
    match content
    case Some(JArr(items)) => NormalizeItems(items, stringify)
    case Some(JStr(s)) => Ok([Text(Trim(s))])
    case Some(JNull) => Ok([Text("")])
    case None => Ok([Text("")])
    case Some(_) => Err(TypeError)
  }

  /** Lines 47-65: destructures one message into role, content and the rest. */
  function NormalizeMessage(message: Json, stringify: Json -> string): (r: Result<Message, Failure>)
    ensures r.Err? ==> r.error == TypeError
  {
    if message == JNull then Err(TypeError)
    else
      var fields := OwnProperties(message);
      var content :- NormalizeContent(Get(fields, "content"), stringify);
      var extra := Omit(fields, {"role", "content"});
      Ok(Message(Get(fields, "role"), content, if |extra| > 0 then Some(extra) else None))
  }

  /** Lines 46-66: `messages.map(...)`; the first message that throws aborts
      the whole map. */
  function NormalizeEachMessage(ms: seq<Json>, stringify: Json -> string): (r: Result<seq<Message>, Failure>)
    ensures r.Err? ==> r.error == TypeError
    ensures r.Ok? ==> |r.value| == |ms|
  {
    if ms == [] then Ok([])
    else
      var first :- NormalizeMessage(ms[0], stringify);
      var rest :- NormalizeEachMessage(ms[1..], stringify);
      Ok([first] + rest)
  }

  /** Lines 46 and 66: the request's `messages`, undefined when `None`. */
  function NormalizeMessages(messages: Option<Json>, stringify: Json -> string): (r: Result<seq<Message>, Failure>)
    ensures r.Err? ==> r.error == TypeError
  {
    match messages
    case Some(JArr(ms)) => NormalizeEachMessage(ms, stringify)
    case _ => Ok([])
  }

  /** Lines 43-72: the document built from the request's JSON value and the
      trimmed response. */
  function BuildDocument(json: Json, response: string, stringify: Json -> string): (r: Result<ParsedDocument, Failure>)
    ensures r.Err? ==> r.error == TypeError
  {
    if json == JNull then Err(TypeError)
    else
      var fields := OwnProperties(json);
      var messages :- NormalizeMessages(Get(fields, "messages"), stringify);
      Ok(ParsedDocument(Omit(fields, {"messages"}), messages, response))
  }

  /** Lines 26-72: the parse, with the failure it raises. */
  function Parse(content: string, parse: string -> Option<Json>, stringify: Json -> string): Result<ParsedDocument, Failure> {
    match RequestJson(content, parse)
    case Err(e) => Err(e)
    case Ok(json) => BuildDocument(json, Trim(SplitOnResponse(content).1), stringify)
  }

  /** `parseContent`: a failure anywhere gives the empty document (lines 73-76). */
  function ParseContent(content: string, parse: string -> Option<Json>, stringify: Json -> string): ParsedDocument {
    match Parse(content, parse, stringify)
    case Ok(document) => document
    case Err(_) => EmptyDocument
  }

  /** What the copy button is given: a message's content, an object (the
      request properties or a message's other properties), or the response. */
  datatype CopySource = ContentBlock(items: seq<ContentItem>) | ObjectBlock(fields: Fields) | TextBlock(text: string)

  /** Line 105-107: one content item's line of copied text. */
  function ItemCopyText(item: ContentItem): string {
    match item
    case Text(t) => t
    case Image(url) => "[Image: " + ToString(url) + "]"
  }

  /** Lines 100-115: the text `handleCopy` puts on the clipboard. An object is
      pretty-printed by `prettyStringify`, which is `JSON.stringify(v, null, 2)`. */
  function CopyText(source: CopySource, prettyStringify: Json -> string): string {
    match source
    case ContentBlock(items) =>
      Join(seq(|items|, i requires 0 <= i < |items| => ItemCopyText(items[i])), "\n")
    case ObjectBlock(fields) => prettyStringify(JObj(fields))
    case TextBlock(text) => text
  }
}
