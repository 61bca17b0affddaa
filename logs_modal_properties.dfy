/** What the log parser and the copy text promise, stated over all inputs and
    all behaviours of `JSON.parse` and `JSON.stringify`. */
module LogsModalProperties {
  import opened Outcomes
  import opened JsStrings
  import opened JsValues
  import opened LogsModal

  // ---------------------------------------------------------------------------
  // Segmenting the log text

  /** The Response marker cannot overlap itself: no character after its first
      is the opening bracket it starts with. */
  lemma ResponseMarkerStartsOnce()
    ensures ResponseMarker[0] == '【'
    ensures forall d :: 1 <= d < |ResponseMarker| ==> ResponseMarker[d] != '【'
  {
    assert ResponseMarker == ['【', 'R', 'e', 's', 'p', 'o', 'n', 's', 'e', ' ', 'B', 'o', 'd', 'y', '】', ':'];
  }

  lemma RequestMarkerStarts()
    ensures RequestMarker[0] == '【'
  {
    assert RequestMarker == ['【', 'R', 'e', 'q', 'u', 'e', 's', 't', ' ', 'B', 'o', 'd', 'y', '】', ':'];
  }

  /** A marker occurrence starts with the marker's first character. */
  lemma OccurrenceStartsWithMarker(s: string, marker: string, i: int)
    requires |marker| > 0
    ensures OccursAt(s, marker, i) ==> s[i] == marker[0]
  {
    if OccursAt(s, marker, i) {
      assert s[i..i + |marker|][0] == s[i];
    }
  }

  /** A string with no opening bracket contains neither marker. */
  lemma NoBracketNoMarker(s: string, marker: string)
    requires |marker| > 0 && marker[0] == '【'
    requires forall i :: 0 <= i < |s| ==> s[i] != '【'
    ensures !Contains(s, marker)
  {
    forall i | 0 <= i < |s| ensures !OccursAt(s, marker, i) {
      OccurrenceStartsWithMarker(s, marker, i);
    }
  }

  /** The split at the last Response marker is the only one whose response part
      holds no further marker. */
  lemma SplitOnResponseUnique(a: string, b: string)
    requires !Contains(b, ResponseMarker)
    ensures SplitOnResponse(a + ResponseMarker + b) == (a, b)
  {
    var content := a + ResponseMarker + b;
    var m := |ResponseMarker|;
    assert content[|a|..|a| + m] == ResponseMarker;
    assert OccursAt(content, ResponseMarker, |a|);
    ResponseMarkerStartsOnce();
    forall k | |a| < k < |a| + m ensures !OccursAt(content, ResponseMarker, k) {
      OccurrenceStartsWithMarker(content, ResponseMarker, k);
      assert content[k] == ResponseMarker[k - |a|];
    }
    assert content[|a| + m..] == b;
    forall k | |a| + m <= k ensures !OccursAt(content, ResponseMarker, k) {
      var j := k - |a| - m;
      if k + m <= |content| {
        assert b[j..j + m] == content[k..k + m];
        assert !OccursAt(b, ResponseMarker, j);
      }
    }
    assert LastIndexOf(content, ResponseMarker) == |a|;
    assert content[..|a|] == a;
  }

  /** The request body is what follows the first Request marker. */
  lemma RequestBodyAfterFirstMarker(a: string, b: string)
    requires forall i :: 0 <= i < |a| ==> a[i] != '【'
    ensures RequestBody(a + RequestMarker + b) == Some(b)
  {
    var part := a + RequestMarker + b;
    var m := |RequestMarker|;
    RequestMarkerStarts();
    assert part[|a|..|a| + m] == RequestMarker;
    assert OccursAt(part, RequestMarker, |a|);
    forall k | 0 <= k < |a| ensures !OccursAt(part, RequestMarker, k) {
      OccurrenceStartsWithMarker(part, RequestMarker, k);
      assert part[k] == a[k];
    }
    assert IndexOf(part, RequestMarker) == |a|;
    assert part[|a| + m..] == b;
  }

  /** Once the request body has been parsed, the result is built from that
      JSON value and the trimmed response part. */
  lemma ParseBuildsFromRequestJson(content: string, parse: string -> Option<Json>, stringify: Json -> string, json: Json)
    requires RequestJson(content, parse) == Ok(json)
    ensures Parse(content, parse, stringify) == BuildDocument(json, Trim(SplitOnResponse(content).1), stringify)
  {
  }

  // ---------------------------------------------------------------------------
  // Mapping over items and messages

  /** Normalising items succeeds exactly when every item normalises, and then
      gives each item's normalisation, in order. */
  lemma {:induction false} NormalizeItemsEach(items: seq<Json>, stringify: Json -> string)
    ensures NormalizeItems(items, stringify).Ok? <==>
      forall i :: 0 <= i < |items| ==> NormalizeItem(items[i], stringify).Ok?
    ensures NormalizeItems(items, stringify).Ok? ==>
      forall i :: 0 <= i < |items| ==> NormalizeItem(items[i], stringify) == Ok(NormalizeItems(items, stringify).value[i])
    decreases |items|
  {
    if items != [] {
      var first := NormalizeItem(items[0], stringify);
      var rest := NormalizeItems(items[1..], stringify);
      NormalizeItemsEach(items[1..], stringify);
      assert forall i :: 1 <= i < |items| ==> items[1..][i - 1] == items[i];
      if first.Ok? && rest.Ok? {
        assert NormalizeItems(items, stringify) == Ok([first.value] + rest.value);
      } else if first.Ok? {
        var j :| 0 <= j < |items[1..]| && !NormalizeItem(items[1..][j], stringify).Ok?;
        assert !NormalizeItem(items[j + 1], stringify).Ok?;
      }
    }
  }

  /** Normalising messages succeeds exactly when every message normalises, and
      then gives each message's normalisation, in order. */
  lemma {:induction false} NormalizeEachMessageEach(ms: seq<Json>, stringify: Json -> string)
    ensures NormalizeEachMessage(ms, stringify).Ok? <==>
      forall i :: 0 <= i < |ms| ==> NormalizeMessage(ms[i], stringify).Ok?
    ensures NormalizeEachMessage(ms, stringify).Ok? ==>
      forall i :: 0 <= i < |ms| ==> NormalizeMessage(ms[i], stringify) == Ok(NormalizeEachMessage(ms, stringify).value[i])
    decreases |ms|
  {
    if ms != [] {
      var first := NormalizeMessage(ms[0], stringify);
      var rest := NormalizeEachMessage(ms[1..], stringify);
      NormalizeEachMessageEach(ms[1..], stringify);
      assert forall i :: 1 <= i < |ms| ==> ms[1..][i - 1] == ms[i];
      if first.Ok? && rest.Ok? {
        assert NormalizeEachMessage(ms, stringify) == Ok([first.value] + rest.value);
      } else if first.Ok? {
        var j :| 0 <= j < |ms[1..]| && !NormalizeMessage(ms[1..][j], stringify).Ok?;
        assert !NormalizeMessage(ms[j + 1], stringify).Ok?;
      }
    }
  }

  // ---------------------------------------------------------------------------
  // When the whole document collapses to the empty one

  /** A failure before the request is built is the failure of the parse, and
      the parser then shows the empty document. */
  lemma ParseOfFailure(content: string, parse: string -> Option<Json>, stringify: Json -> string)
    requires RequestJson(content, parse).Err?
    ensures Parse(content, parse, stringify) == Err(RequestJson(content, parse).error)
    ensures ParseContent(content, parse, stringify) == EmptyDocument
  {
  }

  /** Any failure of the parse shows the empty document. */
  lemma ParseContentOfFailure(content: string, parse: string -> Option<Json>, stringify: Json -> string)
    requires Parse(content, parse, stringify).Err?
    ensures ParseContent(content, parse, stringify) == EmptyDocument
  {
  }

  /** The request is rejected as invalid exactly when the log trims to nothing. */
  lemma RequestJsonInvalidIff(content: string, parse: string -> Option<Json>)
    ensures RequestJson(content, parse) == Err(InvalidContentFormat) <==> Trim(content) == []
  {
  }

  /** Blank input, and only blank input, fails with the "invalid content format"
      error; the parser then returns the empty document. */
  lemma BlankContentIsEmpty(content: string, parse: string -> Option<Json>, stringify: Json -> string)
    ensures Parse(content, parse, stringify) == Err(InvalidContentFormat) <==> AllWhiteSpace(content)
    ensures AllWhiteSpace(content) ==> ParseContent(content, parse, stringify) == EmptyDocument
  {
    TrimEmptyIff(content);
    RequestJsonInvalidIff(content, parse);
    match RequestJson(content, parse)
    case Ok(json) =>
      ParseBuildsFromRequestJson(content, parse, stringify, json);
      assert Parse(content, parse, stringify) != Err(InvalidContentFormat);
    case Err(_) =>
      ParseOfFailure(content, parse, stringify);
  }

  /** A log that is not blank, whose request part has a request body that is
      not blank and that `JSON.parse` accepts, gives the parsed value. */
  lemma RequestJsonOfBody(content: string, parse: string -> Option<Json>, body: string, json: Json)
    requires Trim(content) != []
    requires RequestBody(SplitOnResponse(content).0) == Some(body)
    requires Trim(body) != [] && parse(Trim(body)) == Some(json)
    ensures RequestJson(content, parse) == Ok(json)
  {
  }

  /** Without any Response marker the request part is empty, so a log that is
      not blank fails with "request body not found". */
  lemma NoResponseMarkerIsEmpty(content: string, parse: string -> Option<Json>, stringify: Json -> string)
    requires !Contains(content, ResponseMarker)
    ensures Trim(content) != [] ==> RequestJson(content, parse) == Err(RequestBodyNotFound)
    ensures Parse(content, parse, stringify).Err?
    ensures ParseContent(content, parse, stringify) == EmptyDocument
  {
    assert SplitOnResponse(content).0 == [];
    assert RequestBody([]) == None;
    assert RequestJson(content, parse).Err?;
    ParseOfFailure(content, parse, stringify);
  }

  /** A request part (the text before the last Response marker) without a
      Request marker gives the empty document. */
  lemma NoRequestMarkerIsEmpty(content: string, parse: string -> Option<Json>, stringify: Json -> string)
    requires !Contains(SplitOnResponse(content).0, RequestMarker)
    ensures Parse(content, parse, stringify).Err?
    ensures ParseContent(content, parse, stringify) == EmptyDocument
  {
    assert RequestBody(SplitOnResponse(content).0) == None;
    assert RequestJson(content, parse).Err?;
    ParseOfFailure(content, parse, stringify);
  }

  /** A missing or blank request body, or one `JSON.parse` rejects, fails the
      request. */
  lemma RequestJsonRejectsBody(content: string, parse: string -> Option<Json>)
    requires var body := RequestBody(SplitOnResponse(content).0);
      body.None? || Trim(body.value) == [] || parse(Trim(body.value)).None?
    ensures RequestJson(content, parse).Err?
  {
  }

  /** A request body that is blank gives the empty document. */
  lemma BlankRequestBodyIsEmpty(content: string, parse: string -> Option<Json>, stringify: Json -> string)
    requires RequestBody(SplitOnResponse(content).0).Some?
    requires AllWhiteSpace(RequestBody(SplitOnResponse(content).0).value)
    ensures Parse(content, parse, stringify).Err?
    ensures ParseContent(content, parse, stringify) == EmptyDocument
  {
    TrimEmptyIff(RequestBody(SplitOnResponse(content).0).value);
    RequestJsonRejectsBody(content, parse);
    ParseOfFailure(content, parse, stringify);
  }

  /** A request body `JSON.parse` rejects gives the empty document. */
  lemma InvalidJsonIsEmpty(content: string, parse: string -> Option<Json>, stringify: Json -> string)
    requires RequestBody(SplitOnResponse(content).0).Some?
    requires parse(Trim(RequestBody(SplitOnResponse(content).0).value)).None?
    ensures Parse(content, parse, stringify).Err?
    ensures ParseContent(content, parse, stringify) == EmptyDocument
  {
    RequestJsonRejectsBody(content, parse);
    ParseOfFailure(content, parse, stringify);
  }

  /** A request body that parses to `null` cannot be destructured. */
  lemma NullRequestIsEmpty(content: string, parse: string -> Option<Json>, stringify: Json -> string)
    requires RequestJson(content, parse) == Ok(JNull)
    ensures Parse(content, parse, stringify) == Err(TypeError)
    ensures ParseContent(content, parse, stringify) == EmptyDocument
  {
    ParseBuildsFromRequestJson(content, parse, stringify, JNull);
  }

  /** A message that cannot be normalised makes the whole build fail. */
  lemma FailingMessageFailsBuild(json: Json, response: string, stringify: Json -> string, ms: seq<Json>, i: int)
    requires Get(OwnProperties(json), "messages") == Some(JArr(ms))
    requires 0 <= i < |ms| && NormalizeMessage(ms[i], stringify).Err?
    ensures BuildDocument(json, response, stringify).Err?
  {
    NormalizeEachMessageEach(ms, stringify);
  }

  /** A message that cannot be normalised empties the whole document: there is
      no partial result. */
  lemma FailingMessageIsEmpty(content: string, parse: string -> Option<Json>, stringify: Json -> string,
                              json: Json, ms: seq<Json>, i: int)
    requires RequestJson(content, parse) == Ok(json)
    requires Get(OwnProperties(json), "messages") == Some(JArr(ms))
    requires 0 <= i < |ms| && NormalizeMessage(ms[i], stringify).Err?
    ensures Parse(content, parse, stringify).Err?
    ensures ParseContent(content, parse, stringify) == EmptyDocument
  {
    ParseBuildsFromRequestJson(content, parse, stringify, json);
    FailingMessageFailsBuild(json, Trim(SplitOnResponse(content).1), stringify, ms, i);
  }

  /** A content item that cannot be normalised makes its message fail. */
  lemma FailingItemFailsMessage(message: Json, stringify: Json -> string, items: seq<Json>, j: int)
    requires message != JNull
    requires Get(OwnProperties(message), "content") == Some(JArr(items))
    requires 0 <= j < |items| && NormalizeItem(items[j], stringify).Err?
    ensures NormalizeMessage(message, stringify).Err?
  {
    NormalizeItemsEach(items, stringify);
  }

  /** The ways an item fails, and only these: it is null, it is typed "text"
      without a string `text`, or it is typed "image_url" with an `image_url`
      that is undefined or null. */
  lemma ItemFailures(item: Json, stringify: Json -> string)
    ensures NormalizeItem(item, stringify).Err? <==>
      || item == JNull
      || (!item.JStr? && Get(OwnProperties(item), "type") == Some(JStr("text"))
          && !(Get(OwnProperties(item), "text").Some? && Get(OwnProperties(item), "text").value.JStr?))
      || (!item.JStr? && Get(OwnProperties(item), "type") == Some(JStr("image_url"))
          && Get(OwnProperties(item), "image_url") in {None, Some(JNull)})
  {
  }

  // ---------------------------------------------------------------------------
  // What a successful parse contains

  /** With a Response marker present, the response part is the text after its
      last occurrence. */
  lemma ResponsePartIsTail(content: string)
    requires Contains(content, ResponseMarker)
    ensures var k := LastIndexOf(content, ResponseMarker);
      && OccursAt(content, ResponseMarker, k)
      && SplitOnResponse(content).1 == content[k + |ResponseMarker|..]
  {
    var k := LastIndexOf(content, ResponseMarker);
    var i :| OccursAt(content, ResponseMarker, i);
    assert k >= i;
  }

  /** Where the trim of `s` sits inside `s`. */
  lemma TrimSlice(s: string) returns (i: nat)
    ensures i + |Trim(s)| <= |s| && Trim(s) == s[i..i + |Trim(s)|]
  {
    TrimIsTrimOf(s);
    i :| TrimmedAt(s, Trim(s), i);
  }

  /** A trimmed text holds no marker its untrimmed text lacks. */
  lemma TrimKeepsAbsence(s: string, marker: string)
    requires !Contains(s, marker)
    ensures !Contains(Trim(s), marker)
  {
    var i := TrimSlice(s);
    SliceKeepsAbsence(s, marker, i, i + |Trim(s)|);
  }

  /** A slice of a suffix is a slice of the whole. */
  lemma SliceOfSuffix(s: string, a: nat, i: nat, j: nat)
    requires a <= |s| && i <= j <= |s| - a
    ensures s[a..][i..j] == s[a + i..a + j]
  {
  }

  /** `response` is what the viewer shows as the response of `content`: the
      trim of the text after the last Response marker, a piece of `content`,
      and free of Response markers. */
  ghost predicate IsResponseOf(content: string, response: string) {
    && (exists k ::
         && OccursAt(content, ResponseMarker, k)
         && (forall i :: k < i ==> !OccursAt(content, ResponseMarker, i))
         && response == Trim(content[k + |ResponseMarker|..]))
    && (exists i, j :: 0 <= i <= j <= |content| && response == content[i..j])
    && !Contains(response, ResponseMarker)
  }

  /** The trimmed response part is the trim of the text after the last marker. */
  lemma ResponseAfterLastMarker(content: string)
    requires Contains(content, ResponseMarker)
    ensures exists k ::
      && OccursAt(content, ResponseMarker, k)
      && (forall i :: k < i ==> !OccursAt(content, ResponseMarker, i))
      && Trim(SplitOnResponse(content).1) == Trim(content[k + |ResponseMarker|..])
  {
    ResponsePartIsTail(content);
    var k := LastIndexOf(content, ResponseMarker);
    assert OccursAt(content, ResponseMarker, k);
  }

  /** The trim of a suffix is a piece of the whole text. */
  lemma TrimOfSuffixIsSlice(s: string, a: nat)
    requires a <= |s|
    ensures exists i, j :: 0 <= i <= j <= |s| && Trim(s[a..]) == s[i..j]
  {
    var i := TrimSlice(s[a..]);
    var j := i + |Trim(s[a..])|;
    SliceOfSuffix(s, a, i, j);
    assert Trim(s[a..]) == s[a + i..a + j];
  }

  /** The trimmed response part is a piece of the log. */
  lemma ResponseIsSlice(content: string)
    requires Contains(content, ResponseMarker)
    ensures exists i, j :: 0 <= i <= j <= |content| && Trim(SplitOnResponse(content).1) == content[i..j]
  {
    ResponsePartIsTail(content);
    TrimOfSuffixIsSlice(content, LastIndexOf(content, ResponseMarker) + |ResponseMarker|);
  }

  /** With a Response marker present, the trimmed response part is the
      response of the log. */
  lemma TrimmedResponsePart(content: string)
    requires Contains(content, ResponseMarker)
    ensures IsResponseOf(content, Trim(SplitOnResponse(content).1))
  {
    ResponseAfterLastMarker(content);
    ResponseIsSlice(content);
    TrimKeepsAbsence(SplitOnResponse(content).1, ResponseMarker);
  }

  /** A parse that succeeds has found a Response marker. */
  lemma ParseFindsResponseMarker(content: string, parse: string -> Option<Json>)
    requires RequestJson(content, parse).Ok?
    ensures Contains(content, ResponseMarker)
  {
    var part := SplitOnResponse(content).0;
    assert RequestBody(part).Some?;
    assert Contains(part, RequestMarker);
    assert part != [];
  }

  /** The response is the trim of the text after the last Response marker: it is
      never parsed, it is a piece of the input, and it holds no marker. */
  lemma ResponseIsTrimmedTail(content: string, parse: string -> Option<Json>, stringify: Json -> string)
    requires Parse(content, parse, stringify).Ok?
    ensures IsResponseOf(content, Parse(content, parse, stringify).value.response)
  {
    var json := RequestJson(content, parse).value;
    var response := Trim(SplitOnResponse(content).1);
    ParseBuildsFromRequestJson(content, parse, stringify, json);
    BuildKeepsResponse(json, response, stringify);
    ParseFindsResponseMarker(content, parse);
    TrimmedResponsePart(content);
  }

  /** The built document's response is the response it was given. */
  lemma BuildKeepsResponse(json: Json, response: string, stringify: Json -> string)
    requires BuildDocument(json, response, stringify).Ok?
    ensures BuildDocument(json, response, stringify).value.response == response
  {
  }

  /** The built request properties are the request's own properties without
      `messages`, in their order. */
  lemma BuildRequestProps(json: Json, response: string, stringify: Json -> string)
    requires BuildDocument(json, response, stringify).Ok?
    ensures var props := BuildDocument(json, response, stringify).value.requestProps;
      && props == Omit(OwnProperties(json), {"messages"})
      && (forall i :: 0 <= i < |props| ==> props[i].0 != "messages")
      && (forall f :: f in OwnProperties(json) && f.0 != "messages" ==> f in props)
  {
    var props := Omit(OwnProperties(json), {"messages"});
    OmitKeeps(OwnProperties(json), {"messages"});
    forall i | 0 <= i < |props| ensures props[i].0 != "messages" {
      assert props[i] in props;
    }
  }

  /** The request properties are the request's own properties without
      `messages`, in their order; none of them is named `messages`. */
  lemma RequestPropsOmitMessages(content: string, parse: string -> Option<Json>, stringify: Json -> string, json: Json)
    requires RequestJson(content, parse) == Ok(json)
    requires Parse(content, parse, stringify).Ok?
    ensures var props := Parse(content, parse, stringify).value.requestProps;
      && props == Omit(OwnProperties(json), {"messages"})
      && (forall i :: 0 <= i < |props| ==> props[i].0 != "messages")
      && (forall f :: f in OwnProperties(json) && f.0 != "messages" ==> f in props)
  {
    ParseBuildsFromRequestJson(content, parse, stringify, json);
    BuildRequestProps(json, Trim(SplitOnResponse(content).1), stringify);
  }

  /** A request object without `messages` builds a document with no messages
      and every property kept as it was. */
  lemma BuildWithoutMessages(fields: Fields, response: string, stringify: Json -> string)
    requires Get(fields, "messages").None?
    ensures BuildDocument(JObj(fields), response, stringify) == Ok(ParsedDocument(fields, [], response))
  {
    GetFindsFirst(fields, "messages");
    OmitAbsent(fields, {"messages"});
  }

  /** A request object without `messages` parses, with no messages and every
      property kept as it was. */
  lemma RequestWithoutMessages(content: string, parse: string -> Option<Json>, stringify: Json -> string, fields: Fields)
    requires RequestJson(content, parse) == Ok(JObj(fields))
    requires Get(fields, "messages").None?
    ensures ParseContent(content, parse, stringify) ==
      ParsedDocument(fields, [], Trim(SplitOnResponse(content).1))
  {
    ParseBuildsFromRequestJson(content, parse, stringify, JObj(fields));
    BuildWithoutMessages(fields, Trim(SplitOnResponse(content).1), stringify);
  }

  /** The built messages keep the length and order of a `messages` array. */
  lemma BuildMessages(json: Json, response: string, stringify: Json -> string)
    requires BuildDocument(json, response, stringify).Ok?
    ensures var messages := BuildDocument(json, response, stringify).value.messages;
      match Get(OwnProperties(json), "messages")
      case Some(JArr(ms)) =>
        && |messages| == |ms|
        && (forall i :: 0 <= i < |ms| ==> NormalizeMessage(ms[i], stringify) == Ok(messages[i]))
      case _ => messages == []
  {
    var messages := BuildDocument(json, response, stringify).value.messages;
    match Get(OwnProperties(json), "messages")
    case Some(JArr(ms)) =>
      assert NormalizeEachMessage(ms, stringify) == Ok(messages);
      NormalizeEachMessageEach(ms, stringify);
    case _ =>
  }

  /** An array of messages keeps its length and order, each message the
      normalisation of its source and its role unchanged; `messages` that is
      not an array gives no messages. */
  lemma MessagesKeepOrder(content: string, parse: string -> Option<Json>, stringify: Json -> string, json: Json)
    requires RequestJson(content, parse) == Ok(json)
    requires Parse(content, parse, stringify).Ok?
    ensures var messages := Parse(content, parse, stringify).value.messages;
      match Get(OwnProperties(json), "messages")
      case Some(JArr(ms)) =>
        && |messages| == |ms|
        && (forall i :: 0 <= i < |ms| ==> NormalizeMessage(ms[i], stringify) == Ok(messages[i]))
        && (forall i :: 0 <= i < |ms| ==> messages[i].role == Get(OwnProperties(ms[i]), "role"))
      case _ => messages == []
  {
    ParseBuildsFromRequestJson(content, parse, stringify, json);
    BuildMessages(json, Trim(SplitOnResponse(content).1), stringify);
    var messages := Parse(content, parse, stringify).value.messages;
    match Get(OwnProperties(json), "messages")
    case Some(JArr(ms)) =>
      forall i | 0 <= i < |ms| ensures messages[i].role == Get(OwnProperties(ms[i]), "role") {
        MessageRole(ms[i], stringify, messages[i]);
      }
    case _ =>
  }

  /** A normalised message keeps its source's role. */
  lemma MessageRole(message: Json, stringify: Json -> string, result: Message)
    requires NormalizeMessage(message, stringify) == Ok(result)
    ensures message != JNull
    ensures result.role == Get(OwnProperties(message), "role")
  {
  }

  /** A message carries other properties exactly when it has a property besides
      `role` and `content`, and they are then exactly those properties. */
  lemma MessageOtherProps(message: Json, stringify: Json -> string, result: Message)
    requires NormalizeMessage(message, stringify) == Ok(result)
    ensures var fields := OwnProperties(message);
      && (result.otherProps.None? <==> forall i :: 0 <= i < |fields| ==> fields[i].0 in {"role", "content"})
      && (result.otherProps.Some? ==>
            result.otherProps.value == Omit(fields, {"role", "content"}) && |result.otherProps.value| > 0)
  {
    var fields := OwnProperties(message);
    var extra := Omit(fields, {"role", "content"});
    OmitKeeps(fields, {"role", "content"});
    assert result.otherProps == if |extra| > 0 then Some(extra) else None;
    if |extra| > 0 {
      assert extra[0] in extra;
    } else {
      forall i | 0 <= i < |fields| ensures fields[i].0 in {"role", "content"} {
        assert fields[i] in fields;
        assert fields[i] !in extra;
      }
    }
  }

  /** A normalised message's content is the normalisation of its `content`. */
  lemma MessageContent(message: Json, stringify: Json -> string, result: Message)
    requires NormalizeMessage(message, stringify) == Ok(result)
    ensures NormalizeContent(Get(OwnProperties(message), "content"), stringify) == Ok(result.content)
  {
  }

  /** A string `content` becomes one trimmed text item; an undefined or null
      one a single empty text item. */
  lemma ScalarContent(content: Option<Json>, stringify: Json -> string)
    ensures content.Some? && content.value.JStr? ==>
      NormalizeContent(content, stringify) == Ok([Text(Trim(content.value.str))])
    ensures content == None || content == Some(JNull) ==> NormalizeContent(content, stringify) == Ok([Text("")])
  {
  }

  /** String content becomes one trimmed text item; undefined or null content
      one empty text item. */
  lemma MessageScalarContent(message: Json, stringify: Json -> string, result: Message)
    requires NormalizeMessage(message, stringify) == Ok(result)
    ensures var content := Get(OwnProperties(message), "content");
      && (content.Some? && content.value.JStr? ==> result.content == [Text(Trim(content.value.str))])
      && (content == None || content == Some(JNull) ==> result.content == [Text("")])
  {
    MessageContent(message, stringify, result);
    ScalarContent(Get(OwnProperties(message), "content"), stringify);
  }

  /** Array content keeps its length and order, each item normalised on its own. */
  lemma MessageArrayContent(message: Json, stringify: Json -> string, result: Message, items: seq<Json>)
    requires NormalizeMessage(message, stringify) == Ok(result)
    requires Get(OwnProperties(message), "content") == Some(JArr(items))
    ensures |result.content| == |items|
    ensures forall j :: 0 <= j < |items| ==> NormalizeItem(items[j], stringify) == Ok(result.content[j])
  {
    MessageContent(message, stringify, result);
    assert NormalizeItems(items, stringify) == Ok(result.content);
    NormalizeItemsEach(items, stringify);
  }

  /** Content that is a number, a boolean or a non-array object has no `trim`. */
  lemma ContentWithoutTrimFails(message: Json, stringify: Json -> string)
    requires message != JNull
    requires var content := Get(OwnProperties(message), "content");
      content.Some? && (content.value.JNum? || content.value.JBool? || content.value.JObj?)
    ensures NormalizeMessage(message, stringify) == Err(TypeError)
  {
  }

  /** A string item becomes its trim. */
  lemma StringItem(s: string, stringify: Json -> string)
    ensures NormalizeItem(JStr(s), stringify) == Ok(Text(Trim(s)))
  {
  }

  /** An item typed "text" becomes the trim of its `text`. */
  lemma TextItem(item: Json, stringify: Json -> string, t: string)
    requires item != JNull && !item.JStr?
    requires Get(OwnProperties(item), "type") == Some(JStr("text"))
    requires Get(OwnProperties(item), "text") == Some(JStr(t))
    ensures NormalizeItem(item, stringify) == Ok(Text(Trim(t)))
  {
  }

  /** An item typed "image_url" becomes an image with `image_url.url`. */
  lemma ImageItem(item: Json, stringify: Json -> string, image: Json)
    requires item != JNull && !item.JStr?
    requires Get(OwnProperties(item), "type") == Some(JStr("image_url"))
    requires Get(OwnProperties(item), "image_url") == Some(image) && image != JNull
    ensures NormalizeItem(item, stringify) == Ok(Image(Get(OwnProperties(image), "url")))
  {
  }

  /** Any other item becomes its JSON text, so no item is dropped. */
  lemma OtherItemIsStringified(item: Json, stringify: Json -> string)
    requires item != JNull && !item.JStr?
    requires Get(OwnProperties(item), "type") !in {Some(JStr("text")), Some(JStr("image_url"))}
    ensures NormalizeItem(item, stringify) == Ok(Text(stringify(item)))
  {
  }

  /** An image item only ever comes from an object typed "image_url", and its
      url is that object's `image_url.url`. */
  lemma ImageComesFromImageUrl(item: Json, stringify: Json -> string, url: Option<Json>)
    requires NormalizeItem(item, stringify) == Ok(Image(url))
    ensures item != JNull && !item.JStr?
    ensures Get(OwnProperties(item), "type") == Some(JStr("image_url"))
    ensures var image := Get(OwnProperties(item), "image_url");
      image.Some? && image.value != JNull && url == Get(OwnProperties(image.value), "url")
  {
  }

  /** `{type: "image_url", image_url: {url: u}}` becomes the image `u`. */
  lemma ImageUrlItem(u: string, stringify: Json -> string)
    ensures NormalizeItem(JObj([("type", JStr("image_url")), ("image_url", JObj([("url", JStr(u))]))]), stringify)
      == Ok(Image(Some(JStr(u))))
  {
    var fields := [("type", JStr("image_url")), ("image_url", JObj([("url", JStr(u))]))];
    assert Get(fields, "type") == Some(JStr("image_url"));
    assert fields[1..] == [("image_url", JObj([("url", JStr(u))]))];
    assert Get(fields, "image_url") == Some(JObj([("url", JStr(u))]));
  }

  /** Trimming text that has only white space around a core without outer
      white space gives that core. */
  lemma TrimSurrounded(w1: string, r: string, w2: string)
    requires AllWhiteSpace(w1) && AllWhiteSpace(w2) && NoOuterWhiteSpace(r)
    ensures Trim(w1 + r + w2) == r
  {
    var s := w1 + r + w2;
    assert s[..|w1|] == w1 && s[|w1|..|w1| + |r|] == r && s[|w1| + |r|..] == w2;
    assert TrimmedAt(s, r, |w1|);
    TrimUnique(s, r);
  }

  // A worked log entry: a request line, the request body, and the response.
  function ExampleRequestLine(): string {
    "POST /v1/chat/completions\n"
  }
  function ExampleBody(): string {
    "{" + ExampleBodyInner() + "}"
  }
  function ExampleBodyInner(): string {
    "\"model\":\"x\",\"messages\":[{\"role\":\"user\",\"content\":\" hi \"}]"
  }
  function ExampleTail(): string {
    " hello there\n"
  }
  function ExampleLog(): string {
    ExampleRequestLine() + RequestMarker + ExampleBody() + ResponseMarker + ExampleTail()
  }

  function ExampleMessage(): Json {
    JObj([("role", JStr("user")), ("content", JStr(" hi "))])
  }
  function ExampleRequest(): Json {
    JObj([("model", JStr("x")), ("messages", JArr([ExampleMessage()]))])
  }

  /** The example's request line and response tail hold no marker. */
  lemma ExampleHasNoStrayBracket()
    ensures forall i :: 0 <= i < |ExampleRequestLine()| ==> ExampleRequestLine()[i] != '【'
    ensures forall i :: 0 <= i < |ExampleTail()| ==> ExampleTail()[i] != '【'
  {
  }

  /** The example splits into its request part and its response part. */
  lemma ExampleSplits()
    ensures SplitOnResponse(ExampleLog()) == (ExampleRequestLine() + RequestMarker + ExampleBody(), ExampleTail())
    ensures RequestBody(ExampleRequestLine() + RequestMarker + ExampleBody()) == Some(ExampleBody())
  {
    ResponseMarkerStartsOnce();
    ExampleHasNoStrayBracket();
    NoBracketNoMarker(ExampleTail(), ResponseMarker);
    SplitOnResponseUnique(ExampleRequestLine() + RequestMarker + ExampleBody(), ExampleTail());
    RequestBodyAfterFirstMarker(ExampleRequestLine(), ExampleBody());
  }

  /** The example log is not blank. */
  lemma ExampleNotBlank()
    ensures Trim(ExampleLog()) != []
  {
    assert ExampleLog()[0] == 'P';
    TrimEmptyIff(ExampleLog());
  }

  /** The example's request body is braced. */
  lemma ExampleBodyBraced()
    ensures |ExampleBody()| >= 2 && ExampleBody()[0] == '{' && ExampleBody()[|ExampleBody()| - 1] == '}'
  {
    assert ExampleBody() == "{" + ExampleBodyInner() + "}";
  }

  /** The example's request body has no white space around it. */
  lemma ExampleBodyTrim()
    ensures Trim(ExampleBody()) == ExampleBody() && ExampleBody() != []
  {
    ExampleBodyBraced();
    assert NoOuterWhiteSpace(ExampleBody());
    var e: string := [];
    TrimSurrounded(e, ExampleBody(), e);
    assert e + ExampleBody() + e == ExampleBody();
  }

  /** The example's response is its tail without the surrounding blanks. */
  lemma ExampleTailTrim()
    ensures Trim(ExampleTail()) == "hello there"
  {
    var w1, r, w2 := " ", "hello there", "\n";
    assert w1 + r + w2 == ExampleTail();
    TrimSurrounded(w1, r, w2);
  }

  /** The example message's content trims to "hi". */
  lemma ExampleContentTrim()
    ensures Trim(" hi ") == "hi"
  {
    var w, r := " ", "hi";
    assert w + r + w == " hi ";
    TrimSurrounded(w, r, w);
  }

  /** The example's request body parses to the example request. */
  lemma ExampleRequestJson(parse: string -> Option<Json>)
    requires parse(ExampleBody()) == Some(ExampleRequest())
    ensures RequestJson(ExampleLog(), parse) == Ok(ExampleRequest())
  {
    ExampleSplits();
    ExampleNotBlank();
    ExampleBodyTrim();
    RequestJsonOfBody(ExampleLog(), parse, ExampleBody(), ExampleRequest());
  }

  /** An object message normalises to its role, its normalised content and
      the rest of its properties. */
  lemma NormalizeObjectMessage(fields: Fields, stringify: Json -> string, content: seq<ContentItem>)
    requires NormalizeContent(Get(fields, "content"), stringify) == Ok(content)
    ensures NormalizeMessage(JObj(fields), stringify) ==
      Ok(Message(Get(fields, "role"), content,
         if |Omit(fields, {"role", "content"})| > 0 then Some(Omit(fields, {"role", "content"})) else None))
  {
  }

  /** The example message's role, content and (absent) other properties. */
  lemma ExampleMessageFields()
    ensures Get(ExampleMessage().fields, "role") == Some(JStr("user"))
    ensures Get(ExampleMessage().fields, "content") == Some(JStr(" hi "))
    ensures Omit(ExampleMessage().fields, {"role", "content"}) == []
  {
    var fields := ExampleMessage().fields;
    assert fields[1..] == [("content", JStr(" hi "))];
  }

  /** The example message normalises to a user message saying "hi". */
  lemma ExampleMessageNormalizes(stringify: Json -> string)
    ensures NormalizeMessage(ExampleMessage(), stringify) == Ok(Message(Some(JStr("user")), [Text("hi")], None))
  {
    ExampleContentTrim();
    ExampleMessageFields();
    assert NormalizeContent(Some(JStr(" hi ")), stringify) == Ok([Text("hi")]);
    NormalizeObjectMessage(ExampleMessage().fields, stringify, [Text("hi")]);
  }

  /** An object request builds from its normalised messages and its other
      properties. */
  lemma BuildOfObject(fields: Fields, response: string, stringify: Json -> string, messages: seq<Message>)
    requires NormalizeMessages(Get(fields, "messages"), stringify) == Ok(messages)
    ensures BuildDocument(JObj(fields), response, stringify) ==
      Ok(ParsedDocument(Omit(fields, {"messages"}), messages, response))
  {
  }

  /** The example's messages normalise to the one user message. */
  lemma ExampleMessagesNormalize(stringify: Json -> string)
    ensures NormalizeMessages(Some(JArr([ExampleMessage()])), stringify) ==
      Ok([Message(Some(JStr("user")), [Text("hi")], None)])
  {
    ExampleMessageNormalizes(stringify);
    var ms := [ExampleMessage()];
    NormalizeEachMessageEach(ms, stringify);
    var r := NormalizeEachMessage(ms, stringify);
    assert r.Ok? && |r.value| == 1;
    assert r.value == [Message(Some(JStr("user")), [Text("hi")], None)];
  }

  /** The example request's `messages` and its other properties. */
  lemma ExampleRequestFields()
    ensures Get(ExampleRequest().fields, "messages") == Some(JArr([ExampleMessage()]))
    ensures Omit(ExampleRequest().fields, {"messages"}) == [("model", JStr("x"))]
  {
    var fields := ExampleRequest().fields;
    assert fields[1..] == [("messages", JArr([ExampleMessage()]))];
    assert Omit(fields[1..], {"messages"}) == [];
  }

  /** The example request builds its document. */
  lemma ExampleBuild(stringify: Json -> string)
    ensures BuildDocument(ExampleRequest(), "hello there", stringify) ==
      Ok(ParsedDocument([("model", JStr("x"))], [Message(Some(JStr("user")), [Text("hi")], None)], "hello there"))
  {
    ExampleRequestFields();
    ExampleMessagesNormalize(stringify);
    BuildOfObject(ExampleRequest().fields, "hello there", stringify, [Message(Some(JStr("user")), [Text("hi")], None)]);
  }

  /** A worked log entry: the request's `model` becomes the only request
      property, the one user message keeps its role and trimmed text, and the
      response is the trimmed text after the marker. */
  lemma ExampleExchange(parse: string -> Option<Json>, stringify: Json -> string)
    requires parse(ExampleBody()) == Some(ExampleRequest())
    ensures ParseContent(ExampleLog(), parse, stringify) ==
      ParsedDocument([("model", JStr("x"))], [Message(Some(JStr("user")), [Text("hi")], None)], "hello there")
  {
    ExampleRequestJson(parse);
    ParseBuildsFromRequestJson(ExampleLog(), parse, stringify, ExampleRequest());
    ExampleSplits();
    ExampleTailTrim();
    ExampleBuild(stringify);
  }

  // ---------------------------------------------------------------------------
  // The copy text

  /** The copied text of a message's content has one line per item, in order:
      splitting it at newlines gives back each item's text, or its
      "[Image: url]" placeholder, as long as no item's own text holds a newline. */
  lemma CopyTextLines(items: seq<ContentItem>, prettyStringify: Json -> string)
    requires |items| >= 1
    requires forall i :: 0 <= i < |items| ==> '\n' !in ItemCopyText(items[i])
    ensures var lines := Split(CopyText(ContentBlock(items), prettyStringify), '\n');
      && |lines| == |items|
      && forall i :: 0 <= i < |items| ==>
           lines[i] == match items[i] case Text(t) => t case Image(url) => "[Image: " + ToString(url) + "]"
  {
    var parts := seq(|items|, i requires 0 <= i < |items| => ItemCopyText(items[i]));
    SplitJoin(parts, '\n');
  }

  /** An image whose url is a string is copied as "[Image: " + url + "]". */
  lemma ImageCopyText(url: string)
    ensures ItemCopyText(Image(Some(JStr(url)))) == "[Image: " + url + "]"
  {
  }

  /** Copying an object gives its pretty-printed JSON, copying the response
      gives the response itself. */
  lemma CopyTextOfBlocks(fields: Fields, response: string, prettyStringify: Json -> string)
    ensures CopyText(ObjectBlock(fields), prettyStringify) == prettyStringify(JObj(fields))
    ensures CopyText(TextBlock(response), prettyStringify) == response
  {
  }
}
