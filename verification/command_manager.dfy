/**
 * `CommandProcessorManager`: the keyword parser that turns recognised speech
 * into a command, and the dispatch of that command to the first processor
 * that can handle it. Regular expressions made of literal alternatives are
 * modelled as leftmost-first substring searches on the lowercased, trimmed
 * text; the groups the CALL and SMS expressions capture are arguments.
 */
module CommandManager {
  import opened Wrappers
  import opened Text
  import opened Commands
  import Processor
  import Repository

  // ---------------------------------------------------------------------------
  // Leftmost-first search over literal alternatives
  // ---------------------------------------------------------------------------

  /** The first alternative, in listed order, that occurs at position `p`. */
  function FirstAltAt(text: string, p: nat, alts: seq<string>): (r: Option<nat>)
    ensures r.Some? ==> r.value < |alts| && MatchesAt(text, p, alts[r.value])
    ensures r.Some? ==> forall k | 0 <= k < r.value :: !MatchesAt(text, p, alts[k])
    ensures r.None? <==> forall k | 0 <= k < |alts| :: !MatchesAt(text, p, alts[k])
  {
    if alts == [] then None
    else if MatchesAt(text, p, alts[0]) then Some(0)
    else match FirstAltAt(text, p, alts[1..])
      case None =>
        assert forall k | 1 <= k < |alts| :: alts[k] == alts[1..][k - 1];
        None
      case Some(k) => Some(k + 1)
  }

  /**
   * `Matcher.find()` for a pattern `(a|b|...)` of literals: the earliest
   * position where some alternative occurs, and the first alternative
   * occurring there.
   */
  function FindFrom(text: string, p: nat, alts: seq<string>): (r: Option<(nat, nat)>)
    requires p <= |text| + 1
    ensures r.Some? ==> && p <= r.value.0 <= |text| && r.value.1 < |alts|
                        && MatchesAt(text, r.value.0, alts[r.value.1])
                        && FirstAltAt(text, r.value.0, alts) == Some(r.value.1)
                        && forall q | p <= q < r.value.0 :: FirstAltAt(text, q, alts).None?
    ensures r.None? ==> forall q | p <= q <= |text| :: FirstAltAt(text, q, alts).None?
    decreases |text| + 1 - p
  {
    if p > |text| then None
    else
      var here := FirstAltAt(text, p, alts);
      if here.Some? then Some((p, here.value))
      else
        var later := FindFrom(text, p + 1, alts);
        assert later.Some? ==> forall q | p <= q < later.value.0 :: FirstAltAt(text, q, alts).None? by {
          if later.Some? {
            forall q | p <= q < later.value.0 ensures FirstAltAt(text, q, alts).None? {
              if q > p {
                assert p + 1 <= q;
              }
            }
          }
        }
        later
  }

  /** The search finds something exactly when some alternative occurs somewhere. */
  lemma FindIffContains(text: string, alts: seq<string>)
    ensures FindFrom(text, 0, alts).Some? <==> ContainsAny(text, alts)
  {
    if FindFrom(text, 0, alts).Some? {
      var (p, k) := FindFrom(text, 0, alts).value;
      assert 0 <= p <= |text| - |alts[k]| && MatchesAt(text, p, alts[k]);
      assert Contains(text, alts[k]);
    } else {
      forall k | 0 <= k < |alts|
        ensures !Contains(text, alts[k])
      {
        forall i | 0 <= i <= |text| - |alts[k]|
          ensures !MatchesAt(text, i, alts[k])
        {
          assert FirstAltAt(text, i, alts).None?;
        }
      }
    }
  }

  // ---------------------------------------------------------------------------
  // The patterns
  // ---------------------------------------------------------------------------

  const MediaWords: seq<string> := ["reproducir", "play", "pausar", "pause", "parar", "stop", "siguiente",
                                    "next", "anterior", "previous", "subir volumen", "bajar volumen"]
  const SystemOperations: seq<string> := ["activar", "desactivar", "encender", "apagar", "toggle"]
  const SystemSettings: seq<string> := ["wifi", "bluetooth", "linterna", "flashlight", "brillo"]
  const CallWords: seq<string> := ["llamar", "call", "marcar"]
  const TimeWords: seq<string> := ["qué hora", "hora actual", "what time", "hora es"]
  const DateWords: seq<string> := ["qué día", "fecha", "what day", "qué fecha"]

  /** The media action each keyword of the pattern stands for, in pattern order. */
  const MediaActions: seq<MediaAction> := [Play, Play, Pause, Pause, Stop, Stop, Next, Next, Previous, Previous,
                                           VolumeUp, VolumeDown]

  /** A character of the regular-expression class `\s`. */
  predicate IsRegexSpace(c: char)
  {
    c == ' ' || c == '\t' || c == '\n' || c == 11 as char || c == 12 as char || c == '\r'
  }

  /** A character `.` does not match: a Java line terminator. */
  predicate IsLineTerminator(c: char)
  {
    c == '\n' || c == '\r' || c == 0x85 as char || c == 0x2028 as char || c == 0x2029 as char
  }

  /** The length of the run of `\s` characters starting at `q`. */
  function SpaceRun(text: string, q: nat): (n: nat)
    ensures q + n <= |text| || n == 0
    ensures forall i | q <= i < q + n :: IsRegexSpace(text[i])
    ensures q + n < |text| ==> !IsRegexSpace(text[q + n])
    decreases |text| - q
  {
    if q < |text| && IsRegexSpace(text[q]) then 1 + SpaceRun(text, q + 1) else 0
  }

  /** `parseMediaCommand`'s switch; the default is `PLAY`. */
  function MediaActionFor(word: string): MediaAction
  {
    if word == "reproducir" || word == "play" then Play
    else if word == "pausar" || word == "pause" then Pause
    else if word == "parar" || word == "stop" then Stop
    else if word == "siguiente" || word == "next" then Next
    else if word == "anterior" || word == "previous" then Previous
    else if word == "subir volumen" then VolumeUp
    else if word == "bajar volumen" then VolumeDown
    else Play
  }

  /** Every keyword maps to the action listed beside it. */
  lemma MediaKeywordsMapped(k: nat)
    requires k < |MediaWords|
    ensures MediaActionFor(MediaWords[k]) == MediaActions[k]
  {
  }

  /** The setting each keyword of the SYSTEM pattern stands for, in pattern order. */
  const SettingValues: seq<Setting> := [Wifi, Bluetooth, Flashlight, Flashlight, Brightness]

  /** The operation each keyword of the SYSTEM pattern stands for, in pattern order. */
  const OperationValues: seq<Operation> := [Enable, Disable, Enable, Disable, Toggle]

  /** `parseSystemCommand`'s setting switch; the default is `WIFI`. */
  function SettingFor(word: string): (s: Setting)
    ensures forall k | 0 <= k < |SystemSettings| :: word == SystemSettings[k] ==> s == SettingValues[k]
    ensures word !in SystemSettings ==> s == Wifi
  {
    if word == "wifi" then Wifi
    else if word == "bluetooth" then Bluetooth
    else if word == "linterna" || word == "flashlight" then Flashlight
    else if word == "brillo" then Brightness
    else Wifi
  }

  /** `parseSystemCommand`'s operation switch; the default is `TOGGLE`. */
  function OperationFor(word: string): (o: Operation)
    ensures forall k | 0 <= k < |SystemOperations| :: word == SystemOperations[k] ==> o == OperationValues[k]
    ensures word !in SystemOperations ==> o == Toggle
  {
    if word == "activar" || word == "encender" then Enable
    else if word == "desactivar" || word == "apagar" then Disable
    else Toggle
  }

  /**
   * `(op)\s+(setting)` matches at `p` with these two keywords: the operation,
   * a run of whitespace, then the setting. A setting begins with a letter, so
   * the whitespace run is taken whole.
   */
  predicate SystemMatchAt(text: string, p: nat, op: string, setting: string)
  {
    var q := p + |op|;
    MatchesAt(text, p, op) && SpaceRun(text, q) >= 1 && MatchesAt(text, q + SpaceRun(text, q), setting)
  }

  /**
   * The SYSTEM pattern anchored at `p`: the operations are tried in order,
   * and after the first one followed by whitespace and a setting, the first
   * setting that occurs there. The parser passes `SystemOperations` and
   * `SystemSettings` as `ops` and `settings`.
   */
  function SystemAt(text: string, p: nat, ops: seq<string>, settings: seq<string>): (r: Option<(string, string)>)
    ensures r.Some? ==> r.value.0 in ops && r.value.1 in settings
    decreases |ops|
  {
    if ops == [] then None
    else
      var op := ops[0];
      var q := p + |op|;
      if MatchesAt(text, p, op) && SpaceRun(text, q) >= 1 then
        match FirstAltAt(text, q + SpaceRun(text, q), settings)
          case Some(k) => Some((op, settings[k]))
          case None => SystemAt(text, p, ops[1..], settings)
      else SystemAt(text, p, ops[1..], settings)
  }

  /** A match found at a position is an operation, its whitespace and a setting, there. */
  lemma {:induction false} SystemAtMatches(text: string, p: nat, ops: seq<string>, settings: seq<string>)
    ensures var r := SystemAt(text, p, ops, settings);
            r.Some? ==> SystemMatchAt(text, p, r.value.0, r.value.1)
    decreases |ops|
  {
    if ops != [] {
      var q := p + |ops[0]|;
      if !(MatchesAt(text, p, ops[0]) && SpaceRun(text, q) >= 1 && FirstAltAt(text, q + SpaceRun(text, q), settings).Some?) {
        SystemAtMatches(text, p, ops[1..], settings);
      }
    }
  }

  /** At one position the SYSTEM pattern matches exactly when some operation and setting match there. */
  lemma {:induction false} SystemAtNoneIff(text: string, p: nat, ops: seq<string>, settings: seq<string>)
    ensures SystemAt(text, p, ops, settings).None? <==>
              forall j, k | 0 <= j < |ops| && 0 <= k < |settings| :: !SystemMatchAt(text, p, ops[j], settings[k])
    decreases |ops|
  {
    if ops != [] {
      var q := p + |ops[0]|;
      var here := FirstAltAt(text, q + SpaceRun(text, q), settings);
      if MatchesAt(text, p, ops[0]) && SpaceRun(text, q) >= 1 && here.Some? {
        assert SystemMatchAt(text, p, ops[0], settings[here.value]);
      } else {
        assert forall k | 0 <= k < |settings| :: !SystemMatchAt(text, p, ops[0], settings[k]);
        SystemAtNoneIff(text, p, ops[1..], settings);
        assert forall j | 1 <= j < |ops| :: ops[j] == ops[1..][j - 1];
      }
    }
  }

  /** `find()` for the SYSTEM pattern: the earliest position from `p` on where it matches. */
  function SystemPos(text: string, p: nat, ops: seq<string>, settings: seq<string>): (r: Option<nat>)
    requires p <= |text| + 1
    ensures r.Some? ==> p <= r.value <= |text| && SystemAt(text, r.value, ops, settings).Some?
    ensures forall q | p <= q <= |text| && (r.None? || q < r.value) :: SystemAt(text, q, ops, settings).None?
    decreases |text| + 1 - p
  {
    if p > |text| then None
    else if SystemAt(text, p, ops, settings).Some? then Some(p)
    else
      var later := SystemPos(text, p + 1, ops, settings);
      assert forall q | p <= q <= |text| && (later.None? || q < later.value) :: SystemAt(text, q, ops, settings).None? by {
        forall q | p <= q <= |text| && (later.None? || q < later.value)
          ensures SystemAt(text, q, ops, settings).None?
        {
          if q > p {
            assert p + 1 <= q;
          }
        }
      }
      later
  }

  /** The two groups of the SYSTEM pattern at its earliest match, if there is one. */
  function SystemFind(text: string, p: nat): (r: Option<(string, string)>)
    requires p <= |text| + 1
    ensures r.Some? ==> r.value.0 in SystemOperations && r.value.1 in SystemSettings
    ensures r.Some? <==> SystemPos(text, p, SystemOperations, SystemSettings).Some?
    ensures r.Some? ==> r == SystemAt(text, SystemPos(text, p, SystemOperations, SystemSettings).value, SystemOperations, SystemSettings)
  {
    var pos := SystemPos(text, p, SystemOperations, SystemSettings);
    if pos.Some? then SystemAt(text, pos.value, SystemOperations, SystemSettings) else None
  }

  /**
   * `SystemFind` reports the earliest position from `p` on where some
   * operation, whitespace and setting match, and no match means there is none.
   */
  lemma SystemFindEarliest(text: string, p: nat)
    requires p <= |text| + 1
    ensures var pos := SystemPos(text, p, SystemOperations, SystemSettings);
            var r := SystemFind(text, p);
            (r.Some? ==> SystemMatchAt(text, pos.value, r.value.0, r.value.1))
            && (forall q, j, k | p <= q <= |text| && (r.None? || q < pos.value)
                  && 0 <= j < |SystemOperations| && 0 <= k < |SystemSettings| ::
                  !SystemMatchAt(text, q, SystemOperations[j], SystemSettings[k]))
  {
    var pos := SystemPos(text, p, SystemOperations, SystemSettings);
    if pos.Some? {
      SystemAtMatches(text, pos.value, SystemOperations, SystemSettings);
    }
    forall q, j, k | p <= q <= |text| && (pos.None? || q < pos.value)
                     && 0 <= j < |SystemOperations| && 0 <= k < |SystemSettings|
      ensures !SystemMatchAt(text, q, SystemOperations[j], SystemSettings[k])
    {
      SystemAtNoneIff(text, q, SystemOperations, SystemSettings);
    }
  }


  /** Position `i` holds a character that `.` matches. */
  predicate DotAt(text: string, i: nat)
  {
    i < |text| && !IsLineTerminator(text[i])
  }

  /**
   * The keyword occurs at `p` and is followed by at least one `\s`, after
   * which some character `.` matches begins the rest; `\s+` may give back
   * whitespace for `.+` to take.
   */
  predicate CallAt(text: string, p: nat, word: string)
  {
    var q := p + |word|;
    && MatchesAt(text, p, word)
    && exists i | q < i <= q + SpaceRun(text, q) :: DotAt(text, i)
  }

  /** The CALL pattern `(llamar|call|marcar)\s+(?:a\s+)?(.+)` matches somewhere. */
  predicate CallMatches(text: string)
  {
    exists p, k | 0 <= p <= |text| && 0 <= k < |CallWords| :: CallAt(text, p, CallWords[k])
  }

  /** What the SMS pattern captured: the recipient group and the optional message group. */
  datatype SmsCapture = SmsCapture(recipient: string, message: Option<string>)

  /**
   * The regular-expression work the model does not carry out: group 2 of the
   * CALL pattern for a text it matches, and the SMS pattern's match with its
   * groups 2 and 3.
   */
  datatype Captures = Captures(callRecipient: string -> string, sms: string -> Option<SmsCapture>)

  /** The text every pattern is tried on: `text.toLowerCase().trim()`. */
  function Normalize(text: string): string
  {
    Trim(Lower(text))
  }

  /** Which branch of `parse` a non-empty text takes. */
  datatype Branch = MediaBranch | SystemBranch | CallBranch | SmsBranch | TimeBranch | DateBranch | GeneralBranch

  /** The first pattern, in the order media, system, call, sms, time, date, that matches. */
  function BranchOf(norm: string, captures: Captures): (b: Branch)
    ensures b == MediaBranch <==> ContainsAny(norm, MediaWords)
    ensures b == SystemBranch <==> !ContainsAny(norm, MediaWords) && SystemFind(norm, 0).Some?
    ensures b == CallBranch <==> !ContainsAny(norm, MediaWords) && SystemFind(norm, 0).None? && CallMatches(norm)
    ensures b == SmsBranch <==>
              && !ContainsAny(norm, MediaWords) && SystemFind(norm, 0).None? && !CallMatches(norm)
              && captures.sms(norm).Some?
    ensures b in {TimeBranch, DateBranch, GeneralBranch} <==>
              && !ContainsAny(norm, MediaWords) && SystemFind(norm, 0).None? && !CallMatches(norm)
              && captures.sms(norm).None?
    ensures b in {TimeBranch, DateBranch, GeneralBranch} ==>
              && (b == TimeBranch <==> ContainsAny(norm, TimeWords))
              && (b == DateBranch <==> ContainsAny(norm, DateWords) && !ContainsAny(norm, TimeWords))
  {
    FindIffContains(norm, MediaWords);
    if FindFrom(norm, 0, MediaWords).Some? then MediaBranch
    else if SystemFind(norm, 0).Some? then SystemBranch
    else if CallMatches(norm) then CallBranch
    else if captures.sms(norm).Some? then SmsBranch
    else if ContainsAny(norm, TimeWords) then TimeBranch
    else if ContainsAny(norm, DateWords) then DateBranch
    else GeneralBranch
  }

  /**
   * `CommandParser.parse`: nothing for a null or empty text; otherwise the
   * command of the first matching pattern, with a query of the general kind
   * as the fallback. Recipients come from the normalised text and are
   * trimmed; queries keep the original text.
   */
  function Parse(text: Option<string>, id: string, now: int, captures: Captures): (r: Option<Command>)
    ensures r.None? <==> text.None? || text.value == ""
    ensures r.Some? ==> r.value.id == Some(id) && r.value.timestamp == now
    ensures r.Some? ==>
              var norm := Normalize(text.value);
              && (r.value.MediaCommand? <==> BranchOf(norm, captures) == MediaBranch)
              && (r.value.SystemCommand? <==> BranchOf(norm, captures) == SystemBranch)
              && (r.value.CommunicationCommand? <==> BranchOf(norm, captures) in {CallBranch, SmsBranch})
              && (r.value.QueryCommand? <==> BranchOf(norm, captures) in {TimeBranch, DateBranch, GeneralBranch})
    ensures r.Some? && r.value.MediaCommand? ==>
              && r.value.target.None?
              && r.value.action == Some(MediaActions[FindFrom(Normalize(text.value), 0, MediaWords).value.1])
    ensures r.Some? && r.value.SystemCommand? ==>
              var (op, setting) := SystemFind(Normalize(text.value), 0).value;
              && r.value.setting == SettingFor(setting)
              && r.value.operation == OperationFor(op)
              && r.value.value == -1
    ensures r.Some? && r.value.QueryCommand? ==>
              && r.value.query == text.value
              && r.value.queryType == match BranchOf(Normalize(text.value), captures)
                                      case TimeBranch => Time
                                      case DateBranch => Date
                                      case _ => General
    ensures r.Some? && r.value.CommunicationCommand? ==>
              && r.value.recipient.Some? && r.value.recipient.value == Trim(r.value.recipient.value)
              && (BranchOf(Normalize(text.value), captures) == CallBranch ==>
                    && r.value.commType == Call && r.value.message.None?
                    && r.value.recipient == Some(Trim(captures.callRecipient(Normalize(text.value)))))
              && (BranchOf(Normalize(text.value), captures) == SmsBranch ==>
                    && r.value.commType == Sms
                    && r.value.recipient == Some(Trim(captures.sms(Normalize(text.value)).value.recipient))
                    && r.value.message == captures.sms(Normalize(text.value)).value.message)
  {
    if text.None? || text.value == "" then None
    else
      var norm := Normalize(text.value);
      match BranchOf(norm, captures)
        case MediaBranch =>
          var (_, k) := FindFrom(norm, 0, MediaWords).value;
          MediaKeywordsMapped(k);
          Some(MediaCommand(Some(id), now, Some(MediaActionFor(MediaWords[k])), None))
        case SystemBranch =>
          var (op, setting) := SystemFind(norm, 0).value;
          Some(SystemCommandWithoutValue(Some(id), now, SettingFor(setting), OperationFor(op)))
        case CallBranch =>
          var who := Trim(captures.callRecipient(norm));
          TrimIdempotent(captures.callRecipient(norm));
          Some(CommunicationCommand(Some(id), now, Call, Some(who), None))
        case SmsBranch =>
          var cap := captures.sms(norm).value;
          TrimIdempotent(cap.recipient);
          Some(CommunicationCommand(Some(id), now, Sms, Some(Trim(cap.recipient)), cap.message))
        case TimeBranch => Some(QueryCommand(Some(id), now, Time, text.value))
        case DateBranch => Some(QueryCommand(Some(id), now, Date, text.value))
        case GeneralBranch => Some(QueryCommand(Some(id), now, General, text.value))
  }

  /**
   * "Pause" is read as PAUSE: lowercased, it fails the earlier alternatives
   * "reproducir", "play" and "pausar" at its first position.
   */
  lemma PauseIsPause(id: string, now: int, captures: Captures)
    ensures Parse(Some("Pause"), id, now, captures) == Some(MediaCommand(Some(id), now, Some(Pause), None))
  {
    NormalizePause();
    FindPause();
  }

  lemma NormalizePause()
    ensures Normalize("Pause") == "pause"
  {
    var w := "pause";
    assert Lower("Pause") == w;
    TrimStartOfClean(w);
    TrimEndOfClean(w);
  }

  lemma FindPause()
    ensures FindFrom("pause", 0, MediaWords) == Some((0, 3))
  {
    var w := "pause";
    assert MediaWords[3] == w && MatchesAt(w, 0, MediaWords[3]);
    assert !MatchesAt(w, 0, MediaWords[0]) && !MatchesAt(w, 0, MediaWords[2]) by {
      assert |MediaWords[0]| == 10 && |MediaWords[2]| == 6;
    }
    assert !MatchesAt(w, 0, MediaWords[1]) by {
      assert MediaWords[1] == "play" && w[1] != 'l';
    }
    var r := FirstAltAt(w, 0, MediaWords);
    assert r == Some(3);
  }

  // ---------------------------------------------------------------------------
  // Dispatch
  // ---------------------------------------------------------------------------

  datatype ProcessorKind = MediaProcessor | SystemProcessor | QueryProcessor | CommunicationProcessor

  /** `canHandle`: each processor accepts exactly its own subclass. */
  predicate CanHandle(kind: ProcessorKind, c: Command)
  {
    match kind
      case MediaProcessor => c.MediaCommand?
      case SystemProcessor => c.SystemCommand?
      case QueryProcessor => c.QueryCommand?
      case CommunicationProcessor => c.CommunicationCommand?
  }

  datatype Slot = Slot(kind: ProcessorKind, state: Processor.ProcessorState)

  datatype Manager = Manager(processors: seq<Slot>, history: Repository.Repo<Command>)

  /** The processors in registration order: media, system, query, communication. */
  const NewManager := Manager(
    [Slot(MediaProcessor, Processor.Initial), Slot(SystemProcessor, Processor.Initial),
     Slot(QueryProcessor, Processor.Initial), Slot(CommunicationProcessor, Processor.Initial)],
    Repository.Repo([]))

  /**
   * The id the history files a command under (`Identifiable.getId`). Every
   * command `Parse` builds carries `Some(id)`, so the `""` fallback never
   * applies to a command the manager stores; it only makes the key total over
   * the `Command` type, whose id is optional for commands built elsewhere.
   */
  function CommandKey(c: Command): string
  {
    c.id.GetOr("")
  }

  /** The first processor, in registration order, that can handle the command. */
  function FirstHandler(slots: seq<Slot>, c: Command): (r: Option<nat>)
    ensures r.Some? ==> r.value < |slots| && CanHandle(slots[r.value].kind, c)
    ensures r.Some? ==> forall j | 0 <= j < r.value :: !CanHandle(slots[j].kind, c)
    ensures r.None? <==> forall j | 0 <= j < |slots| :: !CanHandle(slots[j].kind, c)
  {
    if slots == [] then None
    else if CanHandle(slots[0].kind, c) then Some(0)
    else match FirstHandler(slots[1..], c)
      case None => None
      case Some(j) => Some(j + 1)
  }

  /** In a fresh manager every command reaches the processor of its own category. */
  lemma EachCategoryHasItsProcessor(c: Command)
    ensures FirstHandler(NewManager.processors, c).Some?
    ensures var i := FirstHandler(NewManager.processors, c).value;
            i == (match c
                    case MediaCommand(_, _, _, _) => 0
                    case SystemCommand(_, _, _, _, _) => 1
                    case QueryCommand(_, _, _, _) => 2
                    case CommunicationCommand(_, _, _, _, _) => 3)
  {
    var s := NewManager.processors;
    if c.MediaCommand? {
      assert CanHandle(s[0].kind, c);
    } else if c.SystemCommand? {
      assert CanHandle(s[1].kind, c);
    } else if c.QueryCommand? {
      assert CanHandle(s[2].kind, c);
    } else {
      assert CanHandle(s[3].kind, c);
    }
  }

  const ParseFailure: string := "No se pudo parsear el comando"
  const UnknownCommand: string := "unknown"
  const NoProcessorPrefix: string := "No hay procesador disponible para: "

  /** What the handling processor's `execute` does, and the clock and ids the run uses. */
  datatype Run = Run(commandId: string, now: int, captures: Captures, outcome: Processor.Outcome,
                     elapsed: int, resultId: string)

  /**
   * `processText`: a text that does not parse reports failure at once; a
   * parsed command is recorded in the history first and then handed to the
   * first processor that can handle it, or reported as having none.
   */
  function ProcessText(m: Manager, text: Option<string>, run: Run): (r: (Manager, seq<CommandResult>))
    ensures Parse(text, run.commandId, run.now, run.captures).None? ==>
              r == (m, [Failure(Some(UnknownCommand), Some(ParseFailure), run.resultId)])
    ensures Parse(text, run.commandId, run.now, run.captures).Some? ==>
              var c := Parse(text, run.commandId, run.now, run.captures).value;
              && r.0.history == Repository.Add(m.history, Some(c), CommandKey).0
              && |r.0.processors| == |m.processors|
              && (FirstHandler(m.processors, c).None? ==>
                    && r.0.processors == m.processors
                    && r.1 == [Failure(c.id, Some(NoProcessorPrefix + Category(c)), run.resultId)])
              && (FirstHandler(m.processors, c).Some? ==>
                    var i := FirstHandler(m.processors, c).value;
                    var (st, out) := Processor.Process(m.processors[i].state, c, run.outcome, run.now,
                                                       run.elapsed, run.resultId);
                    && r.0.processors == m.processors[i := m.processors[i].(state := st)]
                    && r.1 == out)
  {
    match Parse(text, run.commandId, run.now, run.captures)
      case None => (m, [Failure(Some(UnknownCommand), Some(ParseFailure), run.resultId)])
      case Some(c) =>
        var history := Repository.Add(m.history, Some(c), CommandKey).0;
        match FirstHandler(m.processors, c)
          case None =>
            (m.(history := history), [Failure(c.id, Some(NoProcessorPrefix + Category(c)), run.resultId)])
          case Some(i) =>
            var (st, out) := Processor.Process(m.processors[i].state, c, run.outcome, run.now, run.elapsed,
                                               run.resultId);
            (Manager(m.processors[i := m.processors[i].(state := st)], history), out)
  }

  const NoProcessorFound: string := "No processor found"

  /**
   * `processCommand`: records an already built command and hands it to the
   * first processor that can handle it; with none, the failure names no
   * category.
   */
  function ProcessCommand(m: Manager, c: Command, run: Run): (r: (Manager, seq<CommandResult>))
    ensures r.0.history == Repository.Add(m.history, Some(c), CommandKey).0
    ensures |r.0.processors| == |m.processors|
    ensures FirstHandler(m.processors, c).None? ==>
              r.0.processors == m.processors && r.1 == [Failure(c.id, Some(NoProcessorFound), run.resultId)]
    ensures FirstHandler(m.processors, c).Some? ==>
              var i := FirstHandler(m.processors, c).value;
              && (forall j | 0 <= j < |m.processors| && j != i :: r.0.processors[j] == m.processors[j])
              && r.0.processors[i].kind == m.processors[i].kind
              && (r.0.processors[i].state, r.1)
                 == Processor.Process(m.processors[i].state, c, run.outcome, run.now, run.elapsed, run.resultId)
  {
    var history := Repository.Add(m.history, Some(c), CommandKey).0;
    match FirstHandler(m.processors, c)
      case None => (m.(history := history), [Failure(c.id, Some(NoProcessorFound), run.resultId)])
      case Some(i) =>
        var (st, out) := Processor.Process(m.processors[i].state, c, run.outcome, run.now, run.elapsed,
                                           run.resultId);
        (Manager(m.processors[i := m.processors[i].(state := st)], history), out)
  }

  /**
   * A text that parses is handled exactly as `processCommand` handles the
   * parsed command whenever some processor takes it; the two differ only in
   * the failure they report when none does.
   */
  lemma ProcessTextIsParseThenProcess(m: Manager, text: Option<string>, run: Run)
    requires Parse(text, run.commandId, run.now, run.captures).Some?
    ensures var c := Parse(text, run.commandId, run.now, run.captures).value;
            && ProcessText(m, text, run).0 == ProcessCommand(m, c, run).0
            && (FirstHandler(m.processors, c).Some? ==> ProcessText(m, text, run).1 == ProcessCommand(m, c, run).1)
            && (FirstHandler(m.processors, c).None? ==>
                  ProcessText(m, text, run).1[0].message != ProcessCommand(m, c, run).1[0].message)
  {
    var c := Parse(text, run.commandId, run.now, run.captures).value;
    ParsedSameState(m, text, run, c);
    if FirstHandler(m.processors, c).Some? {
      ParsedSameOutput(m, text, run, c);
    } else {
      ParsedOtherFailure(m, text, run, c);
    }
  }

  lemma ParsedSameState(m: Manager, text: Option<string>, run: Run, c: Command)
    requires Parse(text, run.commandId, run.now, run.captures) == Some(c)
    ensures ProcessText(m, text, run).0 == ProcessCommand(m, c, run).0
  {
  }

  lemma ParsedSameOutput(m: Manager, text: Option<string>, run: Run, c: Command)
    requires Parse(text, run.commandId, run.now, run.captures) == Some(c)
    requires FirstHandler(m.processors, c).Some?
    ensures ProcessText(m, text, run).1 == ProcessCommand(m, c, run).1
  {
  }

  lemma ParsedOtherFailure(m: Manager, text: Option<string>, run: Run, c: Command)
    requires Parse(text, run.commandId, run.now, run.captures) == Some(c)
    requires FirstHandler(m.processors, c).None?
    ensures ProcessText(m, text, run).1[0].message != ProcessCommand(m, c, run).1[0].message
  {
    var cat := Category(c);
    assert ProcessText(m, text, run).1 == [Failure(c.id, Some(NoProcessorPrefix + cat), run.resultId)];
    assert ProcessCommand(m, c, run).1 == [Failure(c.id, Some(NoProcessorFound), run.resultId)];
    PrefixedDiffers(cat);
  }

  /** The category failure never reads like the bare one: they differ at their fourth character. */
  lemma PrefixedDiffers(cat: string)
    ensures NoProcessorPrefix + cat != NoProcessorFound
  {
    var a := NoProcessorPrefix + cat;
    assert a[3] == NoProcessorPrefix[3] != NoProcessorFound[3];
  }

  /** `shutdown`: no processors and an empty history remain. */
  function Shutdown(m: Manager): (r: Manager)
    ensures r.processors == [] && Repository.Size(r.history) == 0
  {
    Manager([], Repository.Clear(m.history))
  }

  /** After `shutdown` every parsed command is reported as having no processor. */
  lemma NothingHandledAfterShutdown(m: Manager, text: string, run: Run)
    requires text != ""
    ensures var r := ProcessText(Shutdown(m), Some(text), run).1;
            var c := Parse(Some(text), run.commandId, run.now, run.captures).value;
            r == [Failure(Some(run.commandId), Some(NoProcessorPrefix + Category(c)), run.resultId)]
  {
  }
}
