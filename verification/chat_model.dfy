/**
 * `ChatMessageModel`: one entry of the chat history, its builder with the
 * defaults it fills in, the factories the service uses, the preview and media
 * queries of the chat screen, and its JSON form. The random UUID and the
 * clock the builder falls back on are arguments.
 */
module ChatModel {
  import opened Wrappers
  import opened Text
  import opened Json
  import opened Messages

  datatype MessageType = UserVoice | UserText | Assistant | SystemMessage | ExecutedAction

  datatype MessageStatus = Sending | Sent | Failed

  datatype ChatRecord = ChatRecord(
    id: string,
    sessionId: Option<string>,
    kind: MessageType,
    text: string,
    timestamp: int,
    status: MessageStatus,
    show: Option<ShowContent>)

  /** The builder's fields; `timestamp` 0 means unset, `status` starts as `Sent`. */
  datatype Builder = Builder(
    id: Option<string>,
    sessionId: Option<string>,
    kind: Option<MessageType>,
    text: Option<string>,
    timestamp: int,
    status: MessageStatus,
    show: Option<ShowContent>)

  const NewBuilder := Builder(None, None, None, None, 0, Sent, None)

  const TypeRequired: string := "MessageType is required"
  const TextRequired: string := "Text is required"

  /**
   * `Builder.build`: fails without a type or a text; otherwise a missing id
   * becomes `freshId` and a timestamp that is not positive becomes `now`.
   */
  function Build(b: Builder, freshId: string, now: int): (r: Result<ChatRecord>)
    ensures b.kind.None? ==> r == Err(TypeRequired)
    ensures b.kind.Some? && b.text.None? ==> r == Err(TextRequired)
    ensures r.Ok? <==> b.kind.Some? && b.text.Some?
    ensures r.Ok? ==> && r.value.id == b.id.GetOr(freshId)
                      && r.value.timestamp == (if b.timestamp > 0 then b.timestamp else now)
                      && r.value.kind == b.kind.value && r.value.text == b.text.value
                      && r.value.sessionId == b.sessionId && r.value.status == b.status && r.value.show == b.show
  {
    if b.kind.None? then Err(TypeRequired)
    else if b.text.None? then Err(TextRequired)
    else Ok(ChatRecord(b.id.GetOr(freshId), b.sessionId, b.kind.value, b.text.value,
                        if b.timestamp > 0 then b.timestamp else now, b.status, b.show))
  }

  /** A message the builder produced with a positive clock has a positive timestamp. */
  lemma BuiltTimestampPositive(b: Builder, freshId: string, now: int)
    requires now > 0
    ensures Build(b, freshId, now).Ok? ==> Build(b, freshId, now).value.timestamp > 0
  {
  }

  predicate IsFromUser(m: ChatRecord)
  {
    m.kind == UserVoice || m.kind == UserText
  }

  predicate IsFromAssistant(m: ChatRecord)
  {
    m.kind == Assistant
  }

  /**
   * Who a message is from: never both the user and the assistant, and neither
   * exactly for a system note or an executed action, which the list shows as
   * a system row.
   */
  lemma SenderKinds(m: ChatRecord)
    ensures !(IsFromUser(m) && IsFromAssistant(m))
    ensures !IsFromUser(m) && !IsFromAssistant(m) <==> m.kind == SystemMessage || m.kind == ExecutedAction
  {
  }

  /** The user factories: a fresh id, status `Sending`, no show content. */
  function FromUserVoice(text: string, sessionId: Option<string>, freshId: string, now: int): (m: ChatRecord)
    ensures m.kind == UserVoice && IsFromUser(m) && !IsFromAssistant(m)
    ensures m.status == Sending && m.id == freshId && m.text == text && m.sessionId == sessionId && m.show.None?
  {
    Build(NewBuilder.(kind := Some(UserVoice), text := Some(text), sessionId := sessionId, status := Sending),
          freshId, now).value
  }

  function FromUserText(text: string, sessionId: Option<string>, freshId: string, now: int): (m: ChatRecord)
    ensures m.kind == UserText && IsFromUser(m) && !IsFromAssistant(m)
    ensures m.status == Sending && m.id == freshId && m.text == text && m.sessionId == sessionId && m.show.None?
  {
    Build(NewBuilder.(kind := Some(UserText), text := Some(text), sessionId := sessionId, status := Sending),
          freshId, now).value
  }

  /** `fromAssistantResponse`: the id is the response's message id when it has one. */
  function FromAssistantResponse(text: string, sessionId: Option<string>, messageId: Option<string>,
                                 show: Option<ShowContent>, freshId: string, now: int): (m: ChatRecord)
    ensures IsFromAssistant(m) && !IsFromUser(m) && m.status == Sent
    ensures m.id == messageId.GetOr(freshId)
    ensures m.text == text && m.sessionId == sessionId && m.show == show
  {
    Build(NewBuilder.(id := messageId, kind := Some(Assistant), text := Some(text), sessionId := sessionId, show := show),
          freshId, now).value
  }

  function SystemNote(text: string, sessionId: Option<string>, freshId: string, now: int): (m: ChatRecord)
    ensures m.kind == SystemMessage && !IsFromUser(m) && !IsFromAssistant(m) && m.status == Sent
    ensures m.text == text && m.sessionId == sessionId
  {
    Build(NewBuilder.(kind := Some(SystemMessage), text := Some(text), sessionId := sessionId), freshId, now).value
  }

  /**
   * `getPreviewText`: the show text, else the show title, else the message
   * text cut to 147 characters plus "..." when it is longer than 150.
   */
  function PreviewText(m: ChatRecord): (r: string)
    ensures m.show.Some? && m.show.value.text.Some? ==> r == m.show.value.text.value
    ensures m.show.Some? && m.show.value.text.None? && m.show.value.title.Some? ==> r == m.show.value.title.value
    ensures (m.show.None? || (m.show.value.text.None? && m.show.value.title.None?)) ==>
              && (|m.text| <= 150 ==> r == m.text)
              && (|m.text| > 150 ==> |r| == 150 && r[..147] == m.text[..147] && r[147..] == "...")
  {
    if m.show.Some? && m.show.value.text.Some? then m.show.value.text.value
    else if m.show.Some? && m.show.value.title.Some? then m.show.value.title.value
    else if |m.text| > 150 then m.text[..147] + "..."
    else m.text
  }

  /** `hasMedia`: show content with an image, a video, or at least one link. */
  predicate HasMedia(m: ChatRecord): (r: bool)
    ensures m.show.None? ==> !r
    ensures m.show.Some? && (m.show.value.imageUrl.Some? || m.show.value.videoUrl.Some?) ==> r
    ensures m.show.Some? && m.show.value.imageUrl.None? && m.show.value.videoUrl.None? ==> (r <==> m.show.value.links != [])
  {
    m.show.Some? && (m.show.value.imageUrl.Some? || m.show.value.videoUrl.Some? || |m.show.value.links| > 0)
  }

  /** Messages the user typed or said have no media and preview as their own (shortened) text. */
  lemma UserMessagesArePlain(text: string, sessionId: Option<string>, freshId: string, now: int)
    ensures var m := FromUserText(text, sessionId, freshId, now);
            !HasMedia(m) && (|text| <= 150 ==> PreviewText(m) == text)
    ensures var m := FromUserVoice(text, sessionId, freshId, now);
            !HasMedia(m) && (|text| <= 150 ==> PreviewText(m) == text)
  {
  }

  // ---------------------------------------------------------------------------
  // JSON form
  // ---------------------------------------------------------------------------

  function TypeName(t: MessageType): string
  {
    match t
    case UserVoice => "USER_VOICE"
    case UserText => "USER_TEXT"
    case Assistant => "ASSISTANT"
    case SystemMessage => "SYSTEM"
    case ExecutedAction => "ACTION"
  }

  /** `MessageType.valueOf`: exact names only. */
  function TypeOf(s: string): (r: Option<MessageType>)
    ensures forall t :: r == Some(t) <==> s == TypeName(t)
  {
    match s
    case "USER_VOICE" => Some(UserVoice)
    case "USER_TEXT" => Some(UserText)
    case "ASSISTANT" => Some(Assistant)
    case "SYSTEM" => Some(SystemMessage)
    case "ACTION" => Some(ExecutedAction)
    case _ => None
  }

  function StatusName(s: MessageStatus): string
  {
    match s
    case Sending => "SENDING"
    case Sent => "SENT"
    case Failed => "ERROR"
  }

  /** `MessageStatus.valueOf`: exact names only. */
  function StatusOf(s: string): (r: Option<MessageStatus>)
    ensures forall t :: r == Some(t) <==> s == StatusName(t)
  {
    match s
    case "SENDING" => Some(Sending)
    case "SENT" => Some(Sent)
    case "ERROR" => Some(Failed)
    case _ => None
  }

  /** The Java enum constant name of a show content type. */
  function ContentEnumName(t: ShowContentType): string
  {
    match t
    case TextContent => "TEXT"
    case Image => "IMAGE"
    case ImageText => "IMAGE_TEXT"
    case LinkContent => "LINK"
    case Links => "LINKS"
    case Video => "VIDEO"
    case Card => "CARD"
    case ListContent => "LIST"
  }

  /** The enum name lowers to the wire name, so the case-insensitive parser reads it back. */
  lemma ContentEnumNameParses(t: ShowContentType)
    ensures ParseContentType(ContentEnumName(t)) == t
  {
    var n := ContentEnumName(t);
    assert Lower(n) == ContentTypeName(t) by {
      forall i | 0 <= i < |n|
        ensures Lower(n)[i] == ContentTypeName(t)[i]
      {
      }
    }
  }

  /**
   * The stored form of show content: the fields the backend writes, with the
   * type as its enum name, and the link and item arrays left out when empty.
   */
  function ShowContentToJson(sc: ShowContent): (o: Object)
    ensures "links" in o <==> |sc.links| > 0
    ensures "items" in o <==> |sc.items| > 0
  {
    var full := ShowToJson(sc)["type" := JStr(ContentEnumName(sc.kind))];
    var withLinks := if |sc.links| == 0 then full - {"links"} else full;
    if |sc.items| == 0 then withLinks - {"items"} else withLinks
  }

  /** Stored show content reads back as the content that was stored. */
  lemma ShowContentRoundTrip(sc: ShowContent, render: Render)
    ensures ShowFromJson(Some(ShowContentToJson(sc)), render) == Some(sc)
  {
    var o := ShowContentToJson(sc);
    ContentEnumNameParses(sc.kind);
    StoredLinks(sc, render);
    StoredItems(sc, render);
    StoredScalars(sc, render);
    assert OptStringOr(o, "type", "text", render) == ContentEnumName(sc.kind);
    var r := ShowFromJson(Some(o), render).value;
    assert r.kind == sc.kind;
    assert r.links == sc.links && r.items == sc.items;
    assert r.title == sc.title && r.text == sc.text;
  }

  lemma StoredLinks(sc: ShowContent, render: Render)
    ensures LinksFromJson(ShowContentToJson(sc), render) == sc.links
  {
    var o := ShowContentToJson(sc);
    var j := ShowToJson(sc);
    LinksRoundTrip(sc, render);
    if |sc.links| > 0 {
      assert o["links"] == j["links"];
      assert OptArray(o, "links") == OptArray(j, "links");
    }
  }

  lemma StoredItems(sc: ShowContent, render: Render)
    ensures ItemsFromJson(ShowContentToJson(sc), render) == sc.items
  {
    var o := ShowContentToJson(sc);
    var j := ShowToJson(sc);
    ItemsRoundTrip(sc, render);
    if |sc.items| > 0 {
      assert o["items"] == j["items"];
      assert OptArray(o, "items") == OptArray(j, "items");
    }
  }

  /** Outside the three keys it rewrites, the stored object agrees with the backend's serialisation. */
  lemma StoredKeyAgrees(sc: ShowContent, key: string)
    requires key != "type" && key != "links" && key != "items"
    ensures key in ShowContentToJson(sc) <==> key in ShowToJson(sc)
    ensures key in ShowToJson(sc) ==> ShowContentToJson(sc)[key] == ShowToJson(sc)[key]
  {
  }

  /** The optional text fields are stored exactly as the backend writes them. */
  lemma StoredScalars(sc: ShowContent, render: Render)
    ensures var o := ShowContentToJson(sc);
            && OptString(o, "title", None, render) == sc.title
            && OptString(o, "text", None, render) == sc.text
            && OptString(o, "imageUrl", None, render) == sc.imageUrl
            && OptString(o, "videoUrl", None, render) == sc.videoUrl
            && OptString(o, "thumbnailUrl", None, render) == sc.thumbnailUrl
  {
    SerialisedScalars(sc, render);
    StoredKeyAgrees(sc, "title");
    StoredKeyAgrees(sc, "text");
    StoredKeyAgrees(sc, "imageUrl");
    StoredKeyAgrees(sc, "videoUrl");
    StoredKeyAgrees(sc, "thumbnailUrl");
  }

  /** `toJson`: the session is `put` even when null, which leaves it out; show content only when present. */
  function ToJson(m: ChatRecord): (o: Object)
    ensures "sessionId" in o <==> m.sessionId.Some?
    ensures "showContent" in o <==> m.show.Some?
  {
    var withSession := PutNullable(map["id" := JStr(m.id)], "sessionId", m.sessionId);
    var base := withSession["type" := JStr(TypeName(m.kind))]["text" := JStr(m.text)]
                ["timestamp" := JNum(m.timestamp)]["status" := JStr(StatusName(m.status))];
    if m.show.Some? then base["showContent" := JObj(ShowContentToJson(m.show.value))] else base
  }

  /** `getString`: a missing key is an error; any present value is turned into text. */
  function GetString(o: Object, key: string, render: Render): (r: Result<string>)
    ensures r.Ok? <==> key in o
    ensures key in o && o[key].JStr? ==> r == Ok(o[key].s)
  {
    if key in o then Ok(OptString(o, key, None, render).value) else Err("No value for " + key)
  }

  /**
   * `fromJson`: id, type, text and timestamp are required, the type and the
   * status (default "SENT") must be enum names, and show content, when the
   * key is present, must be an object. The result goes through `build`.
   */
  function FromJson(o: Object, freshId: string, now: int, render: Render): (r: Result<ChatRecord>)
    ensures r.Ok? ==> "id" in o && "type" in o && "text" in o && "timestamp" in o
    ensures r.Ok? && "status" !in o ==> r.value.status == Sent
    ensures r.Ok? && "sessionId" !in o ==> r.value.sessionId.None?
  {
    var id := GetString(o, "id", render);
    var sid := OptString(o, "sessionId", None, render);
    var kindName := GetString(o, "type", render);
    var text := GetString(o, "text", render);
    var statusName := OptStringOr(o, "status", "SENT", render);
    if id.Err? then Err(id.error)
    else if kindName.Err? then Err(kindName.error)
    else if TypeOf(kindName.value).None? then Err("No enum constant " + kindName.value)
    else if text.Err? then Err(text.error)
    else if "timestamp" !in o || !o["timestamp"].JNum? then Err("timestamp is not a number")
    else if StatusOf(statusName).None? then Err("No enum constant " + statusName)
    else if "showContent" in o && !o["showContent"].JObj? then Err("showContent is not a JSONObject")
    else
      var show := if "showContent" in o then ShowFromJson(Some(o["showContent"].fields), render) else None;
      Build(Builder(Some(id.value), sid, TypeOf(kindName.value), Some(text.value), o["timestamp"].n,
                    StatusOf(statusName).value, show), freshId, now)
  }

  /**
   * Reading back a stored message gives the same message, the null session
   * and the show content included, as long as its timestamp is positive.
   */
  lemma JsonRoundTrip(m: ChatRecord, freshId: string, now: int, render: Render)
    requires m.timestamp > 0
    ensures FromJson(ToJson(m), freshId, now, render) == Ok(m)
  {
    var o := ToJson(m);
    assert GetString(o, "id", render) == Ok(m.id);
    assert GetString(o, "type", render) == Ok(TypeName(m.kind));
    assert GetString(o, "text", render) == Ok(m.text);
    assert OptStringOr(o, "status", "SENT", render) == StatusName(m.status);
    assert OptString(o, "sessionId", None, render) == m.sessionId;
    if m.show.Some? {
      ShowContentRoundTrip(m.show.value, render);
      assert o["showContent"] == JObj(ShowContentToJson(m.show.value));
    }
  }
}
