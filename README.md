# Log viewer parser of the admin console

This project models the log parser of the admin console's log viewer
(`parseContent` in `web-admin/src/components/LogsModal.js`) and the text that
the viewer's copy button builds (`handleCopy`). It proves what the parser
promises about its output.

A captured log entry is one string. It holds a request part, a
`【Request Body】:` marker with a JSON request body after it, then a
`【Response Body】:` marker with the raw response after that. `parseContent`:

- splits the text at the **last** Response marker;
- takes everything after the **first** Request marker in the request part;
- trims it and hands it to `JSON.parse`;
- destructures the parsed value into its `messages` and the remaining request
  properties;
- normalises every message into its role, a list of content items (text or
  image) and its remaining properties.

Any exception on the way gives the fixed empty document
`{requestProps: {}, messages: [], response: ""}`.

The model is pure, as the source is. Its modules:

- `Outcomes`: `Option` (JavaScript's `undefined` is `None`) and `Result`.
- `JsStrings`: the JavaScript string operations the parser uses:
  - `trim`, over the ECMAScript WhiteSpace and LineTerminator code points;
  - `indexOf` and `lastIndexOf`, which give -1 when nothing is found;
  - `substring`, with its clamping and swapping of arguments;
  - `join`, and a `split` at one character that the copy-text properties use
    to read the copied lines back.
- `JsValues`: the values `JSON.parse` produces, and the three language
  operations the parser applies to them: property reads, destructuring with a
  rest element, and conversion to a string. A string or array that is
  destructured exposes its indices as keys, as `ToObject` does.
- `LogsModal`: the parser and the copy text.
  - `Parse` returns `Result<ParsedDocument, Failure>`. It distinguishes the two
    errors the code throws itself (`InvalidContentFormat`,
    `RequestBodyNotFound`) from the `SyntaxError` of `JSON.parse` and the
    `TypeError`s of destructuring `null`, reading a property of null or
    undefined, or calling `.trim()` on a non-string.
  - `ParseContent` turns any failure into `EmptyDocument`, as the `catch`
    block does.
- `LogsModalProperties`: the properties, stated for all inputs and for all
  behaviours of `JSON.parse` and `JSON.stringify`.

`JSON.parse`, `JSON.stringify` and `JSON.stringify(v, null, 2)` are library
calls whose internals are not modelled. They enter every function as
parameters:

- `parse: string -> Option<Json>`, where `None` means it threw a SyntaxError;
- `stringify` and `prettyStringify`, both of type `Json -> string`.

Behaviours of the code that a reader might not expect, all of which the model
keeps:

- A request body that parses to a non-object is still destructured:
  - a number or boolean gives empty request properties;
  - a string gives its characters under index keys;
  - only `null` throws a TypeError.
- Some message content throws a TypeError, and the whole document is then empty:
  - an item that is `null` (reading `item.type`, line 52);
  - an item typed `"text"` whose `text` is not a string (line 53);
  - an item typed `"image_url"` whose `image_url` is undefined or null
    (line 55);
  - a non-array `content` that is a number, a boolean or an object, which has
    no `trim` (line 59).
- Without a Response marker, `lastIndexOf` gives -1 and `substring(0, -1)` is
  empty, so a non-blank log fails with "request body not found".

## Model

| member | source | states |
|---|---|---|
| JsStrings.TrimStartSpec | web-admin/src/components/LogsModal.js:27 | the start of `trim` drops exactly the longest all-white-space prefix |
| JsStrings.TrimEndSpec | web-admin/src/components/LogsModal.js:27 | the end of `trim` drops exactly the longest all-white-space suffix |
| JsStrings.TrimIsTrimOf | web-admin/src/components/LogsModal.js:71 | the trim is a piece of its input with only white space around it, and neither starts nor ends with white space |
| JsStrings.TrimUnique | web-admin/src/components/LogsModal.js:71 | any string satisfying that characterisation is the trim, so the trim is fully determined |
| JsStrings.TrimEmptyIff | web-admin/src/components/LogsModal.js:27 | a string trims to nothing exactly when all of it is white space |
| JsStrings.TrimIdempotent | web-admin/src/components/LogsModal.js:71 | trimming twice is trimming once |
| JsStrings.IndexOf | web-admin/src/components/LogsModal.js:37 | -1 when the pattern does not occur, else an occurrence with none before it |
| JsStrings.LastIndexOf | web-admin/src/components/LogsModal.js:32 | -1 when the pattern does not occur, else an occurrence with none after it |
| JsStrings.Substring | web-admin/src/components/LogsModal.js:33-34 | in-range arguments give that slice; a start and end that are both non-positive give the empty string |
| JsStrings.SplitJoin | web-admin/src/components/LogsModal.js:108 | splitting a newline join of pieces without newlines gives the pieces back |
| JsStrings.JoinSplit | web-admin/src/components/LogsModal.js:108 | joining the pieces of a split gives the string back |
| JsValues.DecimalString | web-admin/src/components/LogsModal.js:43 | an index key of a destructured string or array is a non-empty string of decimal digits |
| JsValues.DecimalStringValue | web-admin/src/components/LogsModal.js:43 | an index key is the canonical decimal form of its index: its digits denote the index, and it has no leading zero |
| JsValues.DecimalStringInjective | web-admin/src/components/LogsModal.js:43 | distinct indices give distinct keys |
| JsValues.GetFindsFirst | web-admin/src/components/LogsModal.js:52-55 | a property read is undefined exactly when no property has the key, and otherwise gives the first such property's value |
| JsValues.OmitKeeps | web-admin/src/components/LogsModal.js:43 | a rest element holds exactly the properties whose key is not destructured |
| JsValues.OmitAppend | web-admin/src/components/LogsModal.js:47 | a rest element keeps the order of the properties it retains |
| JsValues.OmitAbsent | web-admin/src/components/LogsModal.js:43 | a rest element omitting keys the value lacks is all of its properties |
| LogsModal.SplitOnResponse | web-admin/src/components/LogsModal.js:32-34 | with a Response marker present, the log is request part + marker + response part, and the response part holds no further marker; without one, the request part is empty |
| LogsModal.RequestBody | web-admin/src/components/LogsModal.js:37 | the regex match fails exactly when the request part lacks the Request marker; otherwise the capture is everything after its first occurrence |
| LogsModal.BodyJson | web-admin/src/components/LogsModal.js:37-42 | a missing or blank body fails with "request body not found", and a body that `JSON.parse` rejects fails with a SyntaxError; nothing else fails |
| LogsModal.NormalizeItem | web-admin/src/components/LogsModal.js:50-57 | the only failure of one content item is a TypeError |
| LogsModal.NormalizeItems | web-admin/src/components/LogsModal.js:49-58 | the map over items fails only with a TypeError, and on success gives one item per source item |
| LogsModal.NormalizeContent | web-admin/src/components/LogsModal.js:48-59 | the only failure of a message's content is a TypeError |
| LogsModal.NormalizeMessage | web-admin/src/components/LogsModal.js:47-65 | the only failure of one message is a TypeError |
| LogsModal.NormalizeEachMessage | web-admin/src/components/LogsModal.js:46-66 | the map over messages fails only with a TypeError, and on success gives one message per source message |
| LogsModal.NormalizeMessages | web-admin/src/components/LogsModal.js:46 | the only failure of the messages is a TypeError |
| LogsModal.BuildDocument | web-admin/src/components/LogsModal.js:43-72 | building the document from the parsed request fails only with a TypeError |
| LogsModalProperties.SplitOnResponseUnique | web-admin/src/components/LogsModal.js:32-34 | the split of `a + marker + b`, with no marker in `b`, is `(a, b)`: the split inverts the concatenation |
| LogsModalProperties.RequestBodyAfterFirstMarker | web-admin/src/components/LogsModal.js:37 | in `a + marker + b`, with no bracket in `a`, the captured body is `b`, however many markers `b` holds |
| LogsModalProperties.NoBracketNoMarker | web-admin/src/components/LogsModal.js:32 | a text without an opening bracket holds neither marker |
| LogsModalProperties.ParseBuildsFromRequestJson | web-admin/src/components/LogsModal.js:42-72 | once the body has parsed, the result is the document built from that value and the trimmed response part |
| LogsModalProperties.NormalizeItemsEach | web-admin/src/components/LogsModal.js:49-58 | the items map succeeds exactly when every item succeeds, and then gives each item's normalisation at its own index |
| LogsModalProperties.NormalizeEachMessageEach | web-admin/src/components/LogsModal.js:46-66 | the messages map succeeds exactly when every message succeeds, and then gives each message's normalisation at its own index |
| LogsModalProperties.ParseOfFailure | web-admin/src/components/LogsModal.js:73-76 | a failure before the document is built is the parse's failure, and the parser then returns the empty document |
| LogsModalProperties.ParseContentOfFailure | web-admin/src/components/LogsModal.js:73-76 | any failure of the parse gives the empty document |
| LogsModalProperties.RequestJsonInvalidIff | web-admin/src/components/LogsModal.js:27-29 | "invalid content format" is raised exactly when the log trims to nothing |
| LogsModalProperties.BlankContentIsEmpty | web-admin/src/components/LogsModal.js:27-29 | the parse fails with "invalid content format" exactly when the log is all white space, and the parser then returns the empty document |
| LogsModalProperties.RequestJsonOfBody | web-admin/src/components/LogsModal.js:37-42 | a non-blank log whose request body is non-blank and accepted by `JSON.parse` gives the parsed value |
| LogsModalProperties.NoResponseMarkerIsEmpty | web-admin/src/components/LogsModal.js:32-39 | a non-blank log without a Response marker fails with "request body not found", and any log without one gives the empty document |
| LogsModalProperties.NoRequestMarkerIsEmpty | web-admin/src/components/LogsModal.js:37-39 | a request part without a Request marker fails and gives the empty document |
| LogsModalProperties.RequestJsonRejectsBody | web-admin/src/components/LogsModal.js:38-42 | a missing body, a blank body, or one `JSON.parse` rejects fails the request |
| LogsModalProperties.BlankRequestBodyIsEmpty | web-admin/src/components/LogsModal.js:38-39 | a request body that is all white space gives the empty document |
| LogsModalProperties.InvalidJsonIsEmpty | web-admin/src/components/LogsModal.js:42 | a request body that `JSON.parse` rejects gives the empty document |
| LogsModalProperties.NullRequestIsEmpty | web-admin/src/components/LogsModal.js:43 | a request body that parses to `null` fails with a TypeError and gives the empty document |
| LogsModalProperties.FailingMessageFailsBuild | web-admin/src/components/LogsModal.js:46-66 | one message that cannot be normalised fails the whole build |
| LogsModalProperties.FailingMessageIsEmpty | web-admin/src/components/LogsModal.js:46-76 | one message that cannot be normalised empties the whole document, with no partial result |
| LogsModalProperties.FailingItemFailsMessage | web-admin/src/components/LogsModal.js:49-58 | one content item that cannot be normalised fails its message |
| LogsModalProperties.ItemFailures | web-admin/src/components/LogsModal.js:50-57 | an item fails exactly when it is null, is typed "text" without a string `text`, or is typed "image_url" with an undefined or null `image_url` |
| LogsModalProperties.ResponsePartIsTail | web-admin/src/components/LogsModal.js:32-34 | the response part is the text after the last Response marker |
| LogsModalProperties.TrimKeepsAbsence | web-admin/src/components/LogsModal.js:71 | trimming introduces no marker |
| LogsModalProperties.ResponseAfterLastMarker | web-admin/src/components/LogsModal.js:32-34 | the trimmed response part is the trim of the text after an occurrence that has none after it |
| LogsModalProperties.TrimOfSuffixIsSlice | web-admin/src/components/LogsModal.js:71 | the trim of a suffix is a piece of the whole text |
| LogsModalProperties.ResponseIsSlice | web-admin/src/components/LogsModal.js:71 | the trimmed response part is a piece of the log |
| LogsModalProperties.TrimmedResponsePart | web-admin/src/components/LogsModal.js:71 | with a Response marker present, the trimmed response part is the log's response |
| LogsModalProperties.ParseFindsResponseMarker | web-admin/src/components/LogsModal.js:32-39 | a request body is only found when the log has a Response marker |
| LogsModalProperties.ResponseIsTrimmedTail | web-admin/src/components/LogsModal.js:71 | on success the response is the trim of the text after the last Response marker; it is never parsed, it is a piece of the input, and it holds no marker |
| LogsModalProperties.BuildKeepsResponse | web-admin/src/components/LogsModal.js:71 | the built document's response is the response it was given |
| LogsModalProperties.BuildRequestProps | web-admin/src/components/LogsModal.js:43 | the request properties are the request's own properties without `messages`, in order; none is named `messages`, and every other one is kept |
| LogsModalProperties.RequestPropsOmitMessages | web-admin/src/components/LogsModal.js:69 | the same, for the parsed document |
| LogsModalProperties.BuildWithoutMessages | web-admin/src/components/LogsModal.js:43-46 | a request object without `messages` builds with no messages and every property unchanged |
| LogsModalProperties.RequestWithoutMessages | web-admin/src/components/LogsModal.js:68-72 | a parsed request object without `messages` yields no messages, every property unchanged and the trimmed response |
| LogsModalProperties.BuildMessages | web-admin/src/components/LogsModal.js:46 | an array of messages keeps its length and order, each the normalisation of its source; a `messages` that is not an array gives none |
| LogsModalProperties.MessagesKeepOrder | web-admin/src/components/LogsModal.js:61-66 | the same for the parsed document, with every message's role copied unchanged |
| LogsModalProperties.MessageRole | web-admin/src/components/LogsModal.js:47 | a normalised message came from a non-null value and keeps its `role` |
| LogsModalProperties.MessageOtherProps | web-admin/src/components/LogsModal.js:64 | `otherProps` is null exactly when the message has no property besides `role` and `content`; otherwise it is exactly the others, in order |
| LogsModalProperties.MessageContent | web-admin/src/components/LogsModal.js:47-59 | a message's content is the normalisation of its `content` |
| LogsModalProperties.ScalarContent | web-admin/src/components/LogsModal.js:59 | a string `content` becomes its trim as one text item; an undefined or null one becomes one empty text item |
| LogsModalProperties.MessageScalarContent | web-admin/src/components/LogsModal.js:59 | the same, for a normalised message |
| LogsModalProperties.MessageArrayContent | web-admin/src/components/LogsModal.js:48-58 | array content keeps its length and order, each item normalised on its own |
| LogsModalProperties.ContentWithoutTrimFails | web-admin/src/components/LogsModal.js:59 | content that is a number, a boolean or a non-array object fails the message with a TypeError |
| LogsModalProperties.StringItem | web-admin/src/components/LogsModal.js:50-51 | a string item becomes its trim |
| LogsModalProperties.TextItem | web-admin/src/components/LogsModal.js:52-53 | an item typed "text" with a string `text` becomes its trim |
| LogsModalProperties.ImageItem | web-admin/src/components/LogsModal.js:54-55 | an item typed "image_url" with a non-null `image_url` becomes the image of `image_url.url` |
| LogsModalProperties.OtherItemIsStringified | web-admin/src/components/LogsModal.js:57 | any other non-null item becomes its JSON text, so no item is dropped |
| LogsModalProperties.ImageComesFromImageUrl | web-admin/src/components/LogsModal.js:54-55 | an image only comes from an item typed "image_url", and its url is that item's `image_url.url` |
| LogsModalProperties.ImageUrlItem | web-admin/src/components/LogsModal.js:54-55 | `{type: "image_url", image_url: {url: u}}` becomes the image `u` |
| LogsModalProperties.TrimSurrounded | web-admin/src/components/LogsModal.js:71 | white space around a string that neither starts nor ends with white space trims off to give back that string |
| LogsModalProperties.ExampleSplits | web-admin/src/components/LogsModal.js:32-37 | a worked log splits into its request part and response part, and its request body is found |
| LogsModalProperties.ExampleRequestJson | web-admin/src/components/LogsModal.js:27-42 | the worked log's request body gives the parsed request |
| LogsModalProperties.ExampleMessageNormalizes | web-admin/src/components/LogsModal.js:47-65 | the worked message normalises to a user message with the trimmed text "hi" and no other properties |
| LogsModalProperties.ExampleBuild | web-admin/src/components/LogsModal.js:43-72 | the worked request builds its document |
| LogsModalProperties.ExampleExchange | web-admin/src/components/LogsModal.js:25-77 | the worked log parses to request properties `{model: "x"}`, one user message "hi" without other properties, and the response "hello there" |
| LogsModalProperties.CopyTextLines | web-admin/src/components/LogsModal.js:102-108 | the copied text of content has one line per item, in order: a text item's text, or `[Image: url]` for an image, as long as no item's text holds a newline |
| LogsModalProperties.ImageCopyText | web-admin/src/components/LogsModal.js:106 | an image with a string url is copied as `[Image: ` + url + `]` |
| LogsModalProperties.CopyTextOfBlocks | web-admin/src/components/LogsModal.js:109-115 | copying an object gives its pretty-printed JSON, and copying the response gives the response itself |

## Left out

- The rendering of the document (lines 133-503 and 507-682) is not modelled. It is UI: navigation, the content blocks, role colours, icons.
- The scroll listener and `scrollToSection` (lines 82-96, 128-131) are not modelled. They read the DOM and register events.
- The clipboard write, its promise and the `setTimeout` reset of `copiedStates` (lines 117-124) are left out as asynchronous browser I/O. So is every React hook (`useState`, `useRef`, `useMemo`, `useCallback`).
- `console.error` (lines 74 and 123) writes a diagnostic only and is left out.
- The internals of `JSON.parse` and `JSON.stringify` are not modelled; they are parameters. The property order, and which of two duplicate keys survives, are therefore up to `parse`. A property read takes the first property with the key.
- The exact output of `JSON.stringify(item)` and of the pretty-printer on line 111 is not modelled. For example, `{foo: "bar"}` becomes `'{"foo":"bar"}'`; the model only says the item becomes the text `stringify` gives.
- A number is held as the string `Number::toString` gives for it. It is only ever converted to a string, so its value is not modelled.
- Strings are sequences of code points; JavaScript strings are sequences of UTF-16 code units. `trim` is unaffected, because every white-space character is a single unit. The index keys of a destructured string that holds characters outside the Basic Multilingual Plane differ.
- The `content` prop is taken to be a string. A null or undefined prop makes line 27 throw, which gives the empty document; the model does not take that input.
- Converting an object to a string is always "[object Object]". An object from `JSON.parse` with its own `toString` or `valueOf` key would make JavaScript throw or call it; that is not modelled.
- `handleCopy` turns a content item that is neither text nor image into `''` (line 107). That branch cannot be reached with what `parseContent` produces, and the model's content items have only the two kinds.
- `handleCopy` is only given a content list, an object (the request properties or a message's non-null `otherProps`) or the response string (lines 384, 436, 445, 479). Other values of `typeof content` are left out.
- LogsModalProperties.CopyTextLines: the line-by-line statement needs at least one item and no newline inside any item's text. An empty list copies as the empty string, which splits into one empty line.
