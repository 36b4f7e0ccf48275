/**
 * The command model of the local processors: the sealed `CommandType`
 * hierarchy with its categories, descriptions and visitor, and the immutable
 * `CommandResult` record with its factories and copies. Random result ids and
 * the clock are arguments.
 */
module Commands {
  import opened Wrappers
  import opened Text

  datatype MediaAction = Play | Pause | Stop | Next | Previous | VolumeUp | VolumeDown
  datatype Setting = Wifi | Bluetooth | Brightness | Volume | AirplaneMode | Flashlight
  datatype Operation = Enable | Disable | Toggle | SetTo
  datatype QueryType = Weather | Time | Date | Calendar | Reminder | General
  datatype CommType = Call | Sms | Email | Whatsapp

  /**
   * The four permitted subclasses. `id` is `None` for a Java `null` id, and
   * `timestamp` is the clock reading the constructor took.
   */
  datatype Command =
    | MediaCommand(id: Option<string>, timestamp: int, action: Option<MediaAction>, target: Option<string>)
    | SystemCommand(id: Option<string>, timestamp: int, setting: Setting, operation: Operation, value: int)
    | QueryCommand(id: Option<string>, timestamp: int, queryType: QueryType, query: string)
    | CommunicationCommand(id: Option<string>, timestamp: int, commType: CommType, recipient: Option<string>,
                           message: Option<string>)

  /** The three-argument `SystemCommand` constructor: no value, written as -1. */
  function SystemCommandWithoutValue(id: Option<string>, now: int, setting: Setting, operation: Operation): (c: Command)
    ensures c.SystemCommand? && c.value == -1
    ensures c.id == id && c.timestamp == now && c.setting == setting && c.operation == operation
  {
    SystemCommand(id, now, setting, operation, -1)
  }

  const MediaCategory: string := "MEDIA"
  const SystemCategory: string := "SYSTEM"
  const QueryCategory: string := "QUERY"
  const CommunicationCategory: string := "COMMUNICATION"

  /** `getCategory`: fixed by the subclass. */
  function Category(c: Command): (r: string)
    ensures c.MediaCommand? <==> r == MediaCategory
    ensures c.SystemCommand? <==> r == SystemCategory
    ensures c.QueryCommand? <==> r == QueryCategory
    ensures c.CommunicationCommand? <==> r == CommunicationCategory
  {
    match c
      case MediaCommand(_, _, _, _) => MediaCategory
      case SystemCommand(_, _, _, _, _) => SystemCategory
      case QueryCommand(_, _, _, _) => QueryCategory
      case CommunicationCommand(_, _, _, _, _) => CommunicationCategory
  }

  function ActionName(a: MediaAction): string
  {
    match a
      case Play => "PLAY"
      case Pause => "PAUSE"
      case Stop => "STOP"
      case Next => "NEXT"
      case Previous => "PREVIOUS"
      case VolumeUp => "VOLUME_UP"
      case VolumeDown => "VOLUME_DOWN"
  }

  function SettingName(s: Setting): string
  {
    match s
      case Wifi => "WIFI"
      case Bluetooth => "BLUETOOTH"
      case Brightness => "BRIGHTNESS"
      case Volume => "VOLUME"
      case AirplaneMode => "AIRPLANE_MODE"
      case Flashlight => "FLASHLIGHT"
  }

  function OperationName(o: Operation): string
  {
    match o
      case Enable => "ENABLE"
      case Disable => "DISABLE"
      case Toggle => "TOGGLE"
      case SetTo => "SET"
  }

  function QueryTypeName(q: QueryType): string
  {
    match q
      case Weather => "WEATHER"
      case Time => "TIME"
      case Date => "DATE"
      case Calendar => "CALENDAR"
      case Reminder => "REMINDER"
      case General => "GENERAL"
  }

  function CommTypeName(t: CommType): string
  {
    match t
      case Call => "CALL"
      case Sms => "SMS"
      case Email => "EMAIL"
      case Whatsapp => "WHATSAPP"
  }

  /** `String.format("%s", x)` of a possibly null string. */
  function Shown(s: Option<string>): string
  {
    if s.Some? then s.value else "null"
  }

  function ShownAction(a: Option<MediaAction>): string
  {
    if a.Some? then ActionName(a.value) else "null"
  }

  /** `getDescription`. */
  function Description(c: Command): (r: string)
    ensures c.MediaCommand? ==> EndsWith(r, " on '" + c.target.GetOr("current") + "'")
    ensures c.SystemCommand? && c.value >= 0 ==> EndsWith(r, " to " + IntToString(c.value))
    ensures c.QueryCommand? ==> EndsWith(r, "]: " + c.query)
    ensures c.CommunicationCommand? ==> EndsWith(r, " to " + Shown(c.recipient))
  {
    match c
      case MediaCommand(_, _, action, target) =>
        var tail := " on '" + target.GetOr("current") + "'";
        EndsWithConcat("Media: " + ShownAction(action), tail);
        "Media: " + ShownAction(action) + tail
      case SystemCommand(_, _, setting, operation, value) =>
        var tail := if value >= 0 then " to " + IntToString(value) else "";
        EndsWithConcat("System: " + OperationName(operation) + " " + SettingName(setting), tail);
        "System: " + OperationName(operation) + " " + SettingName(setting) + tail
      case QueryCommand(_, _, queryType, query) =>
        EndsWithConcat("Query [" + QueryTypeName(queryType), "]: " + query);
        "Query [" + QueryTypeName(queryType) + ("]: " + query)
      case CommunicationCommand(_, _, commType, recipient, _) =>
        EndsWithConcat("Communication: " + CommTypeName(commType), " to " + Shown(recipient));
        "Communication: " + CommTypeName(commType) + (" to " + Shown(recipient))
  }

  /** Reads the subclass back from a description: the four prefixes are distinct. */
  function CategoryOfDescription(d: string): Option<string>
  {
    if StartsWith(d, "Media: ") then Some(MediaCategory)
    else if StartsWith(d, "System: ") then Some(SystemCategory)
    else if StartsWith(d, "Query [") then Some(QueryCategory)
    else if StartsWith(d, "Communication: ") then Some(CommunicationCategory)
    else None
  }

  /** Every description names its command's category. */
  lemma DescriptionNamesCategory(c: Command)
    ensures CategoryOfDescription(Description(c)) == Some(Category(c))
  {
    match c
    case MediaCommand(_, _, action, target) =>
      PrefixOfConcat("Media: ", Description(c)[7..]);
      assert Description(c) == "Media: " + Description(c)[7..];
    case SystemCommand(_, _, _, _, _) =>
      assert Description(c) == "System: " + Description(c)[8..];
      assert Description(c)[0] == 'S';
      PrefixOfConcat("System: ", Description(c)[8..]);
    case QueryCommand(_, _, _, _) =>
      assert Description(c) == "Query [" + Description(c)[7..];
      assert Description(c)[0] == 'Q';
      PrefixOfConcat("Query [", Description(c)[7..]);
    case CommunicationCommand(_, _, _, _, _) =>
      assert Description(c) == "Communication: " + Description(c)[15..];
      assert Description(c)[0] == 'C';
      PrefixOfConcat("Communication: ", Description(c)[15..]);
  }

  /** A media command without a target describes it as "current". */
  lemma MediaWithoutTarget(id: Option<string>, now: int, action: MediaAction)
    ensures Description(MediaCommand(id, now, Some(action), None)) == "Media: " + ActionName(action) + " on 'current'"
  {
  }

  /** A system command mentions a value exactly when it has one (value at least 0). */
  lemma SystemValueShown(c: Command)
    requires c.SystemCommand?
    ensures c.value < 0 ==> Description(c) == "System: " + OperationName(c.operation) + " " + SettingName(c.setting)
    ensures c.value >= 0 ==> Description(c) == "System: " + OperationName(c.operation) + " " + SettingName(c.setting)
                                             + " to " + IntToString(c.value)
  {
  }

  /** `CommandVisitor<R>`: one method per subclass. */
  datatype Visitor<R> = Visitor(
    visitMedia: Command -> R,
    visitSystem: Command -> R,
    visitQuery: Command -> R,
    visitCommunication: Command -> R)

  /** `accept`: calls exactly the visitor method of the command's own subclass. */
  function Accept<R>(c: Command, v: Visitor<R>): (r: R)
    ensures Category(c) == MediaCategory ==> r == v.visitMedia(c)
    ensures Category(c) == SystemCategory ==> r == v.visitSystem(c)
    ensures Category(c) == QueryCategory ==> r == v.visitQuery(c)
    ensures Category(c) == CommunicationCategory ==> r == v.visitCommunication(c)
  {
    match c
      case MediaCommand(_, _, _, _) => v.visitMedia(c)
      case SystemCommand(_, _, _, _, _) => v.visitSystem(c)
      case QueryCommand(_, _, _, _) => v.visitQuery(c)
      case CommunicationCommand(_, _, _, _, _) => v.visitCommunication(c)
  }

  // ---------------------------------------------------------------------------
  // CommandResult
  // ---------------------------------------------------------------------------

  /** Metadata values are modelled as their text. */
  type Metadata = map<string, string>

  datatype CommandResult = CommandResult(
    id: string,
    success: bool,
    message: string,
    commandId: Option<string>,
    executionTimeMs: int,
    metadata: Metadata)

  const IdRequired: string := "id cannot be null"

  /** The canonical constructor: a null id throws; a null message or metadata becomes empty. */
  function NewResult(id: Option<string>, success: bool, message: Option<string>, commandId: Option<string>,
                     executionTimeMs: int, metadata: Option<Metadata>): (r: Result<CommandResult>)
    ensures r.Ok? <==> id.Some?
    ensures id.None? ==> r.error == IdRequired
    ensures r.Ok? ==> && r.value.id == id.value && r.value.success == success
                      && r.value.message == message.GetOr("") && r.value.commandId == commandId
                      && r.value.executionTimeMs == executionTimeMs && r.value.metadata == metadata.GetOr(map[])
  {
    if id.None? then Err(IdRequired)
    else Ok(CommandResult(id.value, success, message.GetOr(""), commandId, executionTimeMs, metadata.GetOr(map[])))
  }

  /** `success(commandId, message)`. */
  function Success(commandId: Option<string>, message: Option<string>, freshId: string): (r: CommandResult)
    ensures r.success && r.executionTimeMs == 0 && r.metadata == map[]
    ensures r.id == freshId && r.commandId == commandId && r.message == message.GetOr("")
  {
    CommandResult(freshId, true, message.GetOr(""), commandId, 0, map[])
  }

  /** `success(commandId, message, executionTimeMs)`: the only factory that records a time. */
  function SuccessTimed(commandId: Option<string>, message: Option<string>, executionTimeMs: int,
                        freshId: string): (r: CommandResult)
    ensures r.success && r.executionTimeMs == executionTimeMs && r.metadata == map[]
    ensures r == Success(commandId, message, freshId).(executionTimeMs := executionTimeMs)
  {
    CommandResult(freshId, true, message.GetOr(""), commandId, executionTimeMs, map[])
  }

  /** `failure(commandId, errorMessage)`. */
  function Failure(commandId: Option<string>, errorMessage: Option<string>, freshId: string): (r: CommandResult)
    ensures !r.success && r.executionTimeMs == 0 && r.metadata == map[]
    ensures r.id == freshId && r.commandId == commandId && r.message == errorMessage.GetOr("")
  {
    CommandResult(freshId, false, errorMessage.GetOr(""), commandId, 0, map[])
  }

  /** A thrown exception: its simple class name and its (possibly null) message. */
  datatype Cause = Cause(simpleName: string, message: Option<string>)

  const ErrorTypeKey: string := "errorType"

  /**
   * `failure(commandId, errorMessage, cause)`: the cause's message is appended
   * after ": " and its class name is recorded under "errorType"; without a
   * cause the type is "Unknown".
   */
  function FailureWithCause(commandId: Option<string>, errorMessage: string, cause: Option<Cause>,
                            freshId: string): (r: CommandResult)
    ensures !r.success && r.executionTimeMs == 0 && r.id == freshId && r.commandId == commandId
    ensures cause.None? ==> r.message == errorMessage && r.metadata == map[ErrorTypeKey := "Unknown"]
    ensures cause.Some? ==> && r.message == errorMessage + ": " + Shown(cause.value.message)
                            && r.metadata == map[ErrorTypeKey := cause.value.simpleName]
  {
    var text := errorMessage + (if cause.Some? then ": " + Shown(cause.value.message) else "");
    var kind := if cause.Some? then cause.value.simpleName else "Unknown";
    CommandResult(freshId, false, text, commandId, 0, map[ErrorTypeKey := kind])
  }

  /** `withMessage`: a copy differing at most in the message. */
  function WithMessage(r: CommandResult, newMessage: Option<string>): (c: CommandResult)
    ensures c.message == newMessage.GetOr("")
    ensures c.(message := r.message) == r
  {
    r.(message := newMessage.GetOr(""))
  }

  /** `withMetadata`: a copy differing at most in the metadata. */
  function WithMetadata(r: CommandResult, newMetadata: Option<Metadata>): (c: CommandResult)
    ensures c.metadata == newMetadata.GetOr(map[])
    ensures c.(metadata := r.metadata) == r
  {
    r.(metadata := newMetadata.GetOr(map[]))
  }

  /** `equals`: field by field over all six fields. */
  predicate ResultEquals(a: CommandResult, b: CommandResult)
  {
    && a.success == b.success && a.executionTimeMs == b.executionTimeMs && a.id == b.id
    && a.message == b.message && a.commandId == b.commandId && a.metadata == b.metadata
  }

  /** Field-by-field equality is exactly value equality: no field is left out. */
  lemma ResultEqualsIsEquality(a: CommandResult, b: CommandResult)
    ensures ResultEquals(a, b) <==> a == b
  {
  }

  /** Copying with the current message or metadata gives an equal result. */
  lemma CopiesWithSameFieldsAreEqual(r: CommandResult)
    ensures ResultEquals(WithMessage(r, Some(r.message)), r)
    ensures ResultEquals(WithMetadata(r, Some(r.metadata)), r)
  {
  }
}
