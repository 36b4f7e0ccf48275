/**
 * The message vocabulary between the Android client and the backend:
 * rich "show" content, the server-to-client messages as the backend writes
 * them and as `WebSocketMessage.parseServerMessage` reads them, and the
 * client-to-server messages as the client writes them and as the backend's
 * handler reads them. Messages are JSON objects; the JSON text itself is
 * outside the model.
 */
module Messages {
  import opened Wrappers
  import opened Text
  import opened Json

  // ---------------------------------------------------------------------------
  // Show content
  // ---------------------------------------------------------------------------

  datatype ShowContentType = TextContent | Image | ImageText | LinkContent | Links | Video | Card | ListContent

  /** The wire name of each content type. */
  function ContentTypeName(t: ShowContentType): string
  {
    match t
    case TextContent => "text"
    case Image => "image"
    case ImageText => "image_text"
    case LinkContent => "link"
    case Links => "links"
    case Video => "video"
    case Card => "card"
    case ListContent => "list"
  }

  lemma {:induction false} LowerOfLowerName(t: ShowContentType)
    ensures Lower(ContentTypeName(t)) == ContentTypeName(t)
  {
    var n := ContentTypeName(t);
    forall i | 0 <= i < |n|
      ensures Lower(n)[i] == n[i]
    {
      assert !('A' <= n[i] <= 'Z');
    }
  }

  /**
   * The content type named by `s` ignoring letter case; unknown names mean
   * plain text.
   */
  function ParseContentType(s: string): (t: ShowContentType)
    ensures t != TextContent ==> Lower(s) == ContentTypeName(t)
    ensures forall u: ShowContentType :: Lower(s) == ContentTypeName(u) ==> t == u
  {
    match Lower(s)
    case "image" => Image
    case "image_text" => ImageText
    case "link" => LinkContent
    case "links" => Links
    case "video" => Video
    case "card" => Card
    case "list" => ListContent
    case _ => TextContent
  }

  /** Every wire name reads back as its own type. */
  lemma ParseContentTypeName(t: ShowContentType)
    ensures ParseContentType(ContentTypeName(t)) == t
  {
    LowerOfLowerName(t);
  }

  datatype ShowLink = ShowLink(title: string, url: string, description: Option<string>, thumbnailUrl: Option<string>)

  datatype ShowListItem = ShowListItem(title: string, subtitle: Option<string>, imageUrl: Option<string>)

  datatype ShowContent = ShowContent(
    kind: ShowContentType,
    title: Option<string>,
    text: Option<string>,
    imageUrl: Option<string>,
    videoUrl: Option<string>,
    thumbnailUrl: Option<string>,
    links: seq<ShowLink>,
    items: seq<ShowListItem>)

  /** `ShowLink.fromJson`: title and url default to "", the rest to null. */
  function LinkFromJson(o: Object, render: Render): (l: ShowLink)
    ensures "title" !in o ==> l.title == ""
    ensures "url" !in o ==> l.url == ""
    ensures "description" !in o ==> l.description.None?
  {
    ShowLink(OptStringOr(o, "title", "", render), OptStringOr(o, "url", "", render),
             OptString(o, "description", None, render), OptString(o, "thumbnailUrl", None, render))
  }

  /** `ShowListItem.fromJson`: title defaults to "", subtitle and image to null. */
  function ItemFromJson(o: Object, render: Render): (i: ShowListItem)
    ensures "title" !in o ==> i.title == ""
    ensures "subtitle" !in o ==> i.subtitle.None?
  {
    ShowListItem(OptStringOr(o, "title", "", render),
                 OptString(o, "subtitle", None, render), OptString(o, "imageUrl", None, render))
  }

  /** The array under `key`, read element by element, skipping non-objects; a missing array is empty. */
  function LinksFromJson(o: Object, render: Render): (r: seq<ShowLink>)
    ensures OptArray(o, "links").None? ==> r == []
  {
    var os := if OptArray(o, "links").Some? then ObjectsOf(OptArray(o, "links").value) else [];
    seq(|os|, i requires 0 <= i < |os| => LinkFromJson(os[i], render))
  }

  function ItemsFromJson(o: Object, render: Render): (r: seq<ShowListItem>)
    ensures OptArray(o, "items").None? ==> r == []
  {
    var os := if OptArray(o, "items").Some? then ObjectsOf(OptArray(o, "items").value) else [];
    seq(|os|, i requires 0 <= i < |os| => ItemFromJson(os[i], render))
  }

  /** `ShowContent.fromJson`: null for a missing object; the type defaults to "text". */
  function ShowFromJson(o: Option<Object>, render: Render): (r: Option<ShowContent>)
    ensures r.Some? <==> o.Some?
    ensures o.Some? && "type" !in o.value ==> r.value.kind == TextContent
  {
    match o
    case None => None
    case Some(j) =>
      ParseContentTypeName(TextContent);
      Some(ShowContent(
        ParseContentType(OptStringOr(j, "type", "text", render)),
        OptString(j, "title", None, render),
        OptString(j, "text", None, render),
        OptString(j, "imageUrl", None, render),
        OptString(j, "videoUrl", None, render),
        OptString(j, "thumbnailUrl", None, render),
        LinksFromJson(j, render),
        ItemsFromJson(j, render)))
  }

  /** The backend's serialisation of a link: absent optional fields are left out. */
  function LinkToJson(l: ShowLink): Object
  {
    PutOpt(PutOpt(map["title" := JStr(l.title), "url" := JStr(l.url)], "description", l.description),
           "thumbnailUrl", l.thumbnailUrl)
  }

  function ItemToJson(i: ShowListItem): Object
  {
    PutOpt(PutOpt(map["title" := JStr(i.title)], "subtitle", i.subtitle), "imageUrl", i.imageUrl)
  }

  /** The backend's serialisation of show content. */
  function ShowToJson(sc: ShowContent): Object
  {
    var base := map[
      "type" := JStr(ContentTypeName(sc.kind)),
      "links" := JArr(seq(|sc.links|, i requires 0 <= i < |sc.links| => JObj(LinkToJson(sc.links[i])))),
      "items" := JArr(seq(|sc.items|, i requires 0 <= i < |sc.items| => JObj(ItemToJson(sc.items[i]))))];
    PutOpt(PutOpt(PutOpt(PutOpt(PutOpt(base, "title", sc.title), "text", sc.text), "imageUrl", sc.imageUrl),
                  "videoUrl", sc.videoUrl), "thumbnailUrl", sc.thumbnailUrl)
  }

  lemma LinkRoundTrip(l: ShowLink, render: Render)
    ensures LinkFromJson(LinkToJson(l), render) == l
  {
  }

  lemma ItemRoundTrip(i: ShowListItem, render: Render)
    ensures ItemFromJson(ItemToJson(i), render) == i
  {
  }

  /** The link objects the backend writes, before wrapping each in `JObj`. */
  function LinkObjects(links: seq<ShowLink>): seq<Object>
  {
    seq(|links|, i requires 0 <= i < |links| => LinkToJson(links[i]))
  }

  function ItemObjects(items: seq<ShowListItem>): seq<Object>
  {
    seq(|items|, i requires 0 <= i < |items| => ItemToJson(items[i]))
  }

  lemma LinksRoundTrip(sc: ShowContent, render: Render)
    ensures LinksFromJson(ShowToJson(sc), render) == sc.links
  {
    var j := ShowToJson(sc);
    var los := LinkObjects(sc.links);
    assert j["links"] == JArr(seq(|los|, i requires 0 <= i < |los| => JObj(los[i])));
    ObjectsOfObjects(los);
    forall i | 0 <= i < |sc.links|
      ensures LinkFromJson(los[i], render) == sc.links[i]
    {
      LinkRoundTrip(sc.links[i], render);
    }
  }

  lemma ItemsRoundTrip(sc: ShowContent, render: Render)
    ensures ItemsFromJson(ShowToJson(sc), render) == sc.items
  {
    var j := ShowToJson(sc);
    var ios := ItemObjects(sc.items);
    assert j["items"] == JArr(seq(|ios|, i requires 0 <= i < |ios| => JObj(ios[i])));
    ObjectsOfObjects(ios);
    forall i | 0 <= i < |sc.items|
      ensures ItemFromJson(ios[i], render) == sc.items[i]
    {
      ItemRoundTrip(sc.items[i], render);
    }
  }

  /** Each optional text field of the backend's serialisation reads back as written. */
  lemma SerialisedScalars(sc: ShowContent, render: Render)
    ensures var j := ShowToJson(sc);
            && OptString(j, "title", None, render) == sc.title
            && OptString(j, "text", None, render) == sc.text
            && OptString(j, "imageUrl", None, render) == sc.imageUrl
            && OptString(j, "videoUrl", None, render) == sc.videoUrl
            && OptString(j, "thumbnailUrl", None, render) == sc.thumbnailUrl
  {
  }

  /** What the backend sends as show content the client reads back unchanged. */
  lemma ShowRoundTrip(sc: ShowContent, render: Render)
    ensures ShowFromJson(Some(ShowToJson(sc)), render) == Some(sc)
  {
    var j := ShowToJson(sc);
    ParseContentTypeName(sc.kind);
    assert j["type"] == JStr(ContentTypeName(sc.kind));
    SerialisedScalars(sc, render);
    LinksRoundTrip(sc, render);
    ItemsRoundTrip(sc, render);
  }

  // ---------------------------------------------------------------------------
  // Server to client
  // ---------------------------------------------------------------------------

  /** Why a conversation ended. */
  datatype EndReason = UserRequest | AgentDecision | Timeout | SystemReason

  function ReasonName(r: EndReason): string
  {
    match r
    case UserRequest => "user_request"
    case AgentDecision => "agent_decision"
    case Timeout => "timeout"
    case SystemReason => "system"
  }

  /** A message as the backend writes it; optional fields may be absent. */
  datatype ServerMessage =
    | Response(text: string, speak: bool, session: Option<string>, messageId: Option<string>, show: Option<ShowContent>)
    | ActionMessage(action: string, params: Option<Object>)
    | StartConversation(sessionId: string, greeting: Option<string>, context: Option<Object>, show: Option<ShowContent>)
    | EndConversation(sessionId: string, farewell: Option<string>, reason: EndReason)
    | ErrorMessage(message: string)
    | Pong
    | AuthResponse(success: bool, detail: Option<string>)
    | ChangePasswordResponse(success: bool, message: string)

  function PutObj(o: Object, key: string, v: Option<Object>): (r: Object)
    ensures v.Some? ==> r == o[key := JObj(v.value)]
    ensures v.None? ==> r == o
  {
    if v.Some? then o[key := JObj(v.value)] else o
  }

  function PutShow(o: Object, v: Option<ShowContent>): (r: Object)
    ensures v.Some? ==> r == o["show" := JObj(ShowToJson(v.value))]
    ensures v.None? ==> r == o
  {
    if v.Some? then o["show" := JObj(ShowToJson(v.value))] else o
  }

  /** The field names of the same length that the messages use are distinct. */
  lemma KeysDiffer()
    ensures "type" != "text" && "type" != "show" && "text" != "show"
    ensures "speak" != "title" && "speak" != "links" && "speak" != "items"
    ensures "title" != "links" && "title" != "items" && "links" != "items"
    ensures "action" != "params" && "action" != "reason" && "params" != "reason"
    ensures "context" != "message" && "context" != "success" && "message" != "success"
    ensures "greeting" != "farewell" && "subtitle" != "imageUrl" && "imageUrl" != "videoUrl"
    ensures "subtitle" != "videoUrl"
    ensures "sessionId" != "messageId"
  {
    assert "type"[1] != "text"[1] && "type"[0] != "show"[0] && "text"[0] != "show"[0];
    assert "speak"[0] != "title"[0] && "speak"[0] != "links"[0] && "speak"[0] != "items"[0];
    assert "title"[0] != "links"[0] && "title"[0] != "items"[0] && "links"[0] != "items"[0];
    assert "action"[0] != "params"[0] && "action"[0] != "reason"[0] && "params"[0] != "reason"[0];
    assert "context"[0] != "message"[0] && "context"[0] != "success"[0] && "message"[0] != "success"[0];
    assert "greeting"[0] != "farewell"[0] && "subtitle"[0] != "imageUrl"[0] && "imageUrl"[0] != "videoUrl"[0];
    assert "subtitle"[0] != "videoUrl"[0];
    assert "sessionId"[0] != "messageId"[0];
  }

  lemma PutShowKeeps(o: Object, v: Option<ShowContent>, other: string)
    requires other != "show"
    ensures other in PutShow(o, v) <==> other in o
    ensures other in o ==> PutShow(o, v)[other] == o[other]
  {
  }

  lemma PutObjKeeps(o: Object, key: string, v: Option<Object>, other: string)
    requires other != key
    ensures other in PutObj(o, key, v) <==> other in o
    ensures other in o ==> PutObj(o, key, v)[other] == o[other]
  {
  }

  /** `JSON.stringify` of a server message, as an object: undefined fields are left out. */
  function EncodeServer(m: ServerMessage): Object
  {
    match m
    case Response(text, speak, sid, mid, show) =>
      PutShow(PutOpt(PutOpt(map["type" := JStr("response"), "text" := JStr(text), "speak" := JBool(speak)],
                            "sessionId", sid), "messageId", mid), show)
    case ActionMessage(action, params) =>
      PutObj(map["type" := JStr("action"), "action" := JStr(action)], "params", params)
    case StartConversation(sid, greeting, context, show) =>
      PutShow(PutObj(PutOpt(map["type" := JStr("start_conversation"), "sessionId" := JStr(sid)],
                            "greeting", greeting), "context", context), show)
    case EndConversation(sid, farewell, reason) =>
      PutOpt(map["type" := JStr("end_conversation"), "sessionId" := JStr(sid), "reason" := JStr(ReasonName(reason))],
             "farewell", farewell)
    case ErrorMessage(message) =>
      map["type" := JStr("error"), "message" := JStr(message)]
    case Pong =>
      map["type" := JStr("pong")]
    case AuthResponse(success, message) =>
      PutOpt(map["type" := JStr("auth_response"), "success" := JBool(success)], "message", message)
    case ChangePasswordResponse(success, message) =>
      map["type" := JStr("change_password_response"), "success" := JBool(success), "message" := JStr(message)]
  }

  /** What `parseServerMessage` returns; `None` stands for its `null`. */
  datatype Inbound =
    | InResponse(text: string, speak: bool, session: Option<string>, messageId: Option<string>, show: Option<ShowContent>)
    | InStart(sessionId: string, greeting: string, context: Option<Object>, show: Option<ShowContent>)
    | InEnd(sessionId: string, farewell: string, reason: string)
    | InAction(action: string, params: Option<Object>)
    | InError(message: string)
    | InPong

  /** The message types the client understands. */
  const InboundTypes: set<string> := {"response", "start_conversation", "end_conversation", "action", "error", "pong"}

  const ParseErrorPrefix: string := "Error parsing message: "
  const UnknownError: string := "Error desconocido"

  /**
   * `parseServerMessage`. The document is the result of parsing the text into
   * an object; `Err(detail)` is the `JSONException` that parsing raised.
   */
  function ParseServerMessage(doc: Result<Object>, render: Render): (r: Option<Inbound>)
    ensures doc.Err? ==> r == Some(InError(ParseErrorPrefix + doc.error))
    ensures doc.Ok? ==> (r.Some? <==> OptStringOr(doc.value, "type", "", render) in InboundTypes)
  {
    match doc
    case Err(detail) => Some(InError(ParseErrorPrefix + detail))
    case Ok(j) =>
      match OptStringOr(j, "type", "", render)
      case "response" =>
        Some(InResponse(OptStringOr(j, "text", "", render), OptBoolean(j, "speak", false),
                        OptString(j, "sessionId", None, render), OptString(j, "messageId", None, render),
                        ShowFromJson(OptObject(j, "show"), render)))
      case "start_conversation" =>
        Some(InStart(OptStringOr(j, "sessionId", "", render), OptStringOr(j, "greeting", "", render),
                     OptObject(j, "context"), ShowFromJson(OptObject(j, "show"), render)))
      case "end_conversation" =>
        Some(InEnd(OptStringOr(j, "sessionId", "", render), OptStringOr(j, "farewell", "", render),
                   OptStringOr(j, "reason", "system", render)))
      case "action" =>
        Some(InAction(OptStringOr(j, "action", "", render), OptObject(j, "params")))
      case "error" =>
        Some(InError(OptStringOr(j, "message", UnknownError, render)))
      case "pong" => Some(InPong)
      case _ => None
  }

  /**
   * What the client makes of each server message: optional greeting and
   * farewell become "", and the two authentication replies are not
   * understood at all.
   */
  function ClientView(m: ServerMessage): Option<Inbound>
  {
    match m
    case Response(text, speak, sid, mid, show) => Some(InResponse(text, speak, sid, mid, show))
    case ActionMessage(action, params) => Some(InAction(action, params))
    case StartConversation(sid, greeting, context, show) => Some(InStart(sid, greeting.GetOr(""), context, show))
    case EndConversation(sid, farewell, reason) => Some(InEnd(sid, farewell.GetOr(""), ReasonName(reason)))
    case ErrorMessage(message) => Some(InError(message))
    case Pong => Some(InPong)
    case AuthResponse(_, _) => None
    case ChangePasswordResponse(_, _) => None
  }

  lemma ShowFieldRoundTrip(o: Object, show: Option<ShowContent>, render: Render)
    requires "show" !in o
    ensures ShowFromJson(OptObject(PutShow(o, show), "show"), render) == show
  {
    if show.Some? {
      ShowRoundTrip(show.value, render);
    }
  }

  lemma ResponseRoundTrip(text: string, speak: bool, sid: Option<string>, mid: Option<string>,
                          show: Option<ShowContent>, render: Render)
    ensures var m := Response(text, speak, sid, mid, show);
            ParseServerMessage(Ok(EncodeServer(m)), render) == ClientView(m)
  {
    var o1 := map["type" := JStr("response"), "text" := JStr(text), "speak" := JBool(speak)];
    var o := PutOpt(PutOpt(o1, "sessionId", sid), "messageId", mid);
    var j := PutShow(o, show);
    ResponseBase(text, speak);
    ResponseFixedFields(o1, sid, mid, show, render);
    ResponseOptionalFields(o1, sid, mid, show, render);
    ShowFieldRoundTrip(o, show, render);
    ParseResponse(j, render);
  }

  lemma ResponseBase(text: string, speak: bool)
    ensures var o1 := map["type" := JStr("response"), "text" := JStr(text), "speak" := JBool(speak)];
            && "sessionId" !in o1 && "messageId" !in o1 && "show" !in o1
            && "type" in o1 && o1["type"] == JStr("response")
            && "text" in o1 && o1["text"] == JStr(text)
            && "speak" in o1 && o1["speak"] == JBool(speak)
  {
    KeysDiffer();
  }

  /** The fields a response always has are read back through the optional ones. */
  lemma ResponseFixedFields(o1: Object, sid: Option<string>, mid: Option<string>, show: Option<ShowContent>,
                            render: Render)
    ensures var j := PutShow(PutOpt(PutOpt(o1, "sessionId", sid), "messageId", mid), show);
            forall k | k in {"type", "text", "speak"} && k in o1 :: k in j && j[k] == o1[k]
  {
    var o2 := PutOpt(o1, "sessionId", sid);
    var o := PutOpt(o2, "messageId", mid);
    KeysDiffer();
    forall k | k in {"type", "text", "speak"} && k in o1
      ensures k in PutShow(o, show) && PutShow(o, show)[k] == o1[k]
    {
      PutOptKeeps(o1, "sessionId", sid, k);
      PutOptKeeps(o2, "messageId", mid, k);
      PutShowKeeps(o, show, k);
    }
  }

  /** The optional fields of a response are read back as written; the show field is still free. */
  lemma ResponseOptionalFields(o1: Object, sid: Option<string>, mid: Option<string>, show: Option<ShowContent>,
                               render: Render)
    requires "sessionId" !in o1 && "messageId" !in o1 && "show" !in o1
    ensures var j := PutShow(PutOpt(PutOpt(o1, "sessionId", sid), "messageId", mid), show);
            && OptString(j, "sessionId", None, render) == sid
            && OptString(j, "messageId", None, render) == mid
            && "show" !in PutOpt(PutOpt(o1, "sessionId", sid), "messageId", mid)
  {
    var o2 := PutOpt(o1, "sessionId", sid);
    var o := PutOpt(o2, "messageId", mid);
    KeysDiffer();
    assert OptString(PutShow(o, show), "sessionId", None, render) == sid by {
      OptStringPutOpt(o1, "sessionId", sid, None, render);
      PutOptKeeps(o2, "messageId", mid, "sessionId");
      PutShowKeeps(o, show, "sessionId");
    }
    assert OptString(PutShow(o, show), "messageId", None, render) == mid by {
      PutOptKeeps(o1, "sessionId", sid, "messageId");
      OptStringPutOpt(o2, "messageId", mid, None, render);
      PutShowKeeps(o, show, "messageId");
    }
    PutOptKeeps(o1, "sessionId", sid, "show");
    PutOptKeeps(o2, "messageId", mid, "show");
  }

  lemma ParseResponse(j: Object, render: Render)
    requires OptStringOr(j, "type", "", render) == "response"
    ensures ParseServerMessage(Ok(j), render)
            == Some(InResponse(OptStringOr(j, "text", "", render), OptBoolean(j, "speak", false),
                               OptString(j, "sessionId", None, render), OptString(j, "messageId", None, render),
                               ShowFromJson(OptObject(j, "show"), render)))
  {
  }

  lemma ParseStart(j: Object, render: Render)
    requires OptStringOr(j, "type", "", render) == "start_conversation"
    ensures ParseServerMessage(Ok(j), render)
            == Some(InStart(OptStringOr(j, "sessionId", "", render), OptStringOr(j, "greeting", "", render),
                            OptObject(j, "context"), ShowFromJson(OptObject(j, "show"), render)))
  {
  }

  lemma StartRoundTrip(sid: string, greeting: Option<string>, context: Option<Object>,
                       show: Option<ShowContent>, render: Render)
    ensures var m := StartConversation(sid, greeting, context, show);
            ParseServerMessage(Ok(EncodeServer(m)), render) == ClientView(m)
  {
    var o1 := map["type" := JStr("start_conversation"), "sessionId" := JStr(sid)];
    var o := PutObj(PutOpt(o1, "greeting", greeting), "context", context);
    var j := PutShow(o, show);
    StartBase(sid);
    StartFixedFields(o1, greeting, context, show);
    StartOptionalFields(o1, greeting, context, show, render);
    ShowFieldRoundTrip(o, show, render);
    ParseStart(j, render);
  }

  lemma StartBase(sid: string)
    ensures var o1 := map["type" := JStr("start_conversation"), "sessionId" := JStr(sid)];
            && "greeting" !in o1 && "context" !in o1 && "show" !in o1
            && "type" in o1 && o1["type"] == JStr("start_conversation")
            && "sessionId" in o1 && o1["sessionId"] == JStr(sid)
  {
    KeysDiffer();
  }

  /** The fields a conversation start always has are read back through the optional ones. */
  lemma StartFixedFields(o1: Object, greeting: Option<string>, context: Option<Object>, show: Option<ShowContent>)
    ensures var j := PutShow(PutObj(PutOpt(o1, "greeting", greeting), "context", context), show);
            forall k | k in {"type", "sessionId"} && k in o1 :: k in j && j[k] == o1[k]
  {
    var o2 := PutOpt(o1, "greeting", greeting);
    var o := PutObj(o2, "context", context);
    KeysDiffer();
    forall k | k in {"type", "sessionId"} && k in o1
      ensures k in PutShow(o, show) && PutShow(o, show)[k] == o1[k]
    {
      PutOptKeeps(o1, "greeting", greeting, k);
      PutObjKeeps(o2, "context", context, k);
      PutShowKeeps(o, show, k);
    }
  }

  /** A missing greeting reads back as ""; the context reads back as written; the show field is still free. */
  lemma StartOptionalFields(o1: Object, greeting: Option<string>, context: Option<Object>,
                            show: Option<ShowContent>, render: Render)
    requires "greeting" !in o1 && "context" !in o1 && "show" !in o1
    ensures var o := PutObj(PutOpt(o1, "greeting", greeting), "context", context);
            && OptStringOr(PutShow(o, show), "greeting", "", render) == greeting.GetOr("")
            && OptObject(PutShow(o, show), "context") == context
            && "show" !in o
  {
    var o2 := PutOpt(o1, "greeting", greeting);
    var o := PutObj(o2, "context", context);
    assert OptStringOr(PutShow(o, show), "greeting", "", render) == greeting.GetOr("") by {
      OptStringPutOpt(o1, "greeting", greeting, Some(""), render);
      PutObjKeeps(o2, "context", context, "greeting");
      PutShowKeeps(o, show, "greeting");
    }
    assert OptObject(PutShow(o, show), "context") == context by {
      PutOptKeeps(o1, "greeting", greeting, "context");
      PutShowKeeps(o, show, "context");
    }
    PutOptKeeps(o1, "greeting", greeting, "show");
    PutObjKeeps(o2, "context", context, "show");
  }

  /** Every server message the backend writes is read by the client as its client view. */
  lemma ServerRoundTrip(m: ServerMessage, render: Render)
    ensures ParseServerMessage(Ok(EncodeServer(m)), render) == ClientView(m)
  {
    match m
    case Response(text, speak, sid, mid, show) =>
      ResponseRoundTrip(text, speak, sid, mid, show, render);
    case StartConversation(sid, greeting, context, show) =>
      StartRoundTrip(sid, greeting, context, show, render);
    case EndConversation(sid, farewell, reason) =>
      var j := EncodeServer(m);
      assert OptStringOr(j, "type", "", render) == "end_conversation";
    case ActionMessage(action, params) =>
      var j := EncodeServer(m);
      assert OptStringOr(j, "type", "", render) == "action";
    case ErrorMessage(message) =>
      var j := EncodeServer(m);
      assert OptStringOr(j, "type", "", render) == "error";
    case Pong =>
      var j := EncodeServer(m);
      assert OptStringOr(j, "type", "", render) == "pong";
    case AuthResponse(success, detail) =>
      var j := EncodeServer(m);
      assert OptStringOr(j, "type", "", render) == "auth_response";
    case ChangePasswordResponse(success, message) =>
      var j := EncodeServer(m);
      assert OptStringOr(j, "type", "", render) == "change_password_response";
  }

  // ---------------------------------------------------------------------------
  // Client to server
  // ---------------------------------------------------------------------------

  /** The messages the client writes; timestamps are milliseconds from the caller's clock. */
  datatype ClientMessage =
    | VoiceCommand(text: string, timestamp: int, sessionId: Option<string>)
    | ChatMessage(text: string, timestamp: int, sessionId: Option<string>)
    | Notification(app: string, title: string, text: string)
    | EndConversationRequest(sessionId: Option<string>, reason: Option<string>)
    | Ping

  /**
   * The `toJson` of each client message. The session of a command is written
   * only when known; the session of an end request is `put` even when null,
   * which removes the key; the reason only when non-null.
   */
  function ClientToJson(m: ClientMessage): (o: Object)
    ensures "type" in o && o["type"].JStr?
  {
    match m
    case VoiceCommand(text, ts, sid) =>
      PutOpt(map["type" := JStr("voice_command"), "text" := JStr(text), "timestamp" := JNum(ts)], "sessionId", sid)
    case ChatMessage(text, ts, sid) =>
      PutOpt(map["type" := JStr("chat_message"), "text" := JStr(text), "timestamp" := JNum(ts)], "sessionId", sid)
    case Notification(app, title, text) =>
      map["type" := JStr("notification"), "app" := JStr(app), "title" := JStr(title), "text" := JStr(text)]
    case EndConversationRequest(sid, reason) =>
      PutOpt(PutNullable(map["type" := JStr("end_conversation")], "sessionId", sid), "reason", reason)
    case Ping =>
      map["type" := JStr("ping")]
  }

  /** A string-valued field, or nothing. */
  function StrField(o: Object, key: string): (r: Option<string>)
    ensures r.Some? <==> key in o && o[key].JStr?
  {
    if key in o && o[key].JStr? then Some(o[key].s) else None
  }

  /**
   * How the backend's handler reads a client message: the `type` field picks
   * a case, and the fields that case uses are taken as they are. Types it
   * has no case for, and messages without the fields a case reads, give
   * `None`.
   */
  function ReadClientMessage(o: Object): (r: Option<ClientMessage>)
    ensures r.Some? ==> "type" in o && o["type"].JStr?
  {
    match StrField(o, "type")
    case Some("ping") => Some(Ping)
    case Some("voice_command") =>
      if StrField(o, "text").Some? && "timestamp" in o && o["timestamp"].JNum? then
        Some(VoiceCommand(StrField(o, "text").value, o["timestamp"].n, StrField(o, "sessionId")))
      else None
    case Some("chat_message") =>
      if StrField(o, "text").Some? && "timestamp" in o && o["timestamp"].JNum? then
        Some(ChatMessage(StrField(o, "text").value, o["timestamp"].n, StrField(o, "sessionId")))
      else None
    case Some("notification") =>
      if StrField(o, "app").Some? && StrField(o, "title").Some? && StrField(o, "text").Some? then
        Some(Notification(StrField(o, "app").value, StrField(o, "title").value, StrField(o, "text").value))
      else None
    case Some("end_conversation") =>
      Some(EndConversationRequest(StrField(o, "sessionId"), StrField(o, "reason")))
    case _ => None
  }

  /** The backend reads every client message exactly as the client wrote it. */
  lemma ClientRoundTrip(m: ClientMessage)
    ensures ReadClientMessage(ClientToJson(m)) == Some(m)
  {
    var o := ClientToJson(m);
    match m
    case VoiceCommand(text, ts, sid) =>
      assert StrField(o, "type") == Some("voice_command");
    case ChatMessage(text, ts, sid) =>
      assert StrField(o, "type") == Some("chat_message");
    case Notification(app, title, text) =>
      assert StrField(o, "type") == Some("notification");
    case EndConversationRequest(sid, reason) =>
      assert StrField(o, "type") == Some("end_conversation");
    case Ping =>
      assert StrField(o, "type") == Some("ping");
  }
}
