/**
 * The routing decisions of `VoiceService`: whether recognised speech goes to
 * the backend (only after the wake word "yarvis" or "jarvis"), which canned
 * reply a local phrase gets, how a system notification is read aloud, and
 * the conversation flags kept from the connection callbacks. Speech
 * recognition, text-to-speech and broadcasts are reduced to the values they
 * would carry.
 */
module Voice {
  import opened Wrappers
  import opened Text

  const Yarvis: string := "yarvis"
  const Jarvis: string := "jarvis"
  const WakePrompt: string := "¿Sí? ¿En qué puedo ayudarte?"
  const HelloReply: string := "¡Hola! Soy Yarvis, tu asistente de voz."
  const NameReply: string := "Me llamo Yarvis, mucho gusto."
  const FarewellReply: string := "Hasta luego, que tengas un buen día."

  /** The lowered, trimmed text starts with one of the two wake words. */
  predicate StartsWithWakeWord(text: string)
  {
    var l := Trim(Lower(text));
    StartsWith(l, Yarvis) || StartsWith(l, Jarvis)
  }

  /**
   * `removeWakeWord`: with a wake word, the trimmed text without its first
   * six characters, trimmed again; without one, the text unchanged.
   */
  function RemoveWakeWord(text: string): (r: string)
    ensures !StartsWithWakeWord(text) ==> r == text
    ensures StartsWithWakeWord(text) ==> |r| + 6 <= |text| && (r == [] || (!IsTrimmable(r[0]) && !IsTrimmable(r[|r| - 1])))
    ensures StartsWithWakeWord(text) ==> |Trim(text)| >= 6 && r == Trim(Trim(text)[6..])
  {
    if StartsWithWakeWord(text) then
      var t := Trim(text);
      assert |t| >= 6 && |t| <= |text| by {
        LowerTrimCommute(text);
        assert Lower(t) == Trim(Lower(text));
      }
      var r := Trim(t[6..]);
      assert |r| + 6 <= |text|;
      r
    else text
  }

  /** A wake word in any letter case: six letters that lower to "yarvis" or "jarvis". */
  predicate IsWakeWord(w: string)
  {
    Lower(w) == Yarvis || Lower(w) == Jarvis
  }

  /**
   * A text is addressed exactly when its first six characters after trimming
   * form a wake word in some letter case.
   */
  lemma AddressedIffLeadingWakeWord(text: string)
    ensures StartsWithWakeWord(text) <==> |Trim(text)| >= 6 && IsWakeWord(Trim(text)[..6])
  {
    LowerTrimCommute(text);
    LeadingWakeWord(Trim(text));
  }

  lemma LeadingWakeWord(t: string)
    ensures StartsWith(Lower(t), Yarvis) || StartsWith(Lower(t), Jarvis) <==> |t| >= 6 && IsWakeWord(t[..6])
  {
    assert |Yarvis| == 6 && |Jarvis| == 6;
    if |t| >= 6 {
      LowerPrefix(t, 6);
    }
  }

  /**
   * Saying a wake word, then a space and a command, gets the command back,
   * whatever leading whitespace the recogniser added and however the wake
   * word was capitalised.
   */
  lemma WakeWordRoundTrip(ws: string, w: string, command: string)
    requires forall i :: 0 <= i < |ws| ==> IsTrimmable(ws[i])
    requires IsWakeWord(w)
    requires command == [] || (!IsTrimmable(command[0]) && !IsTrimmable(command[|command| - 1]))
    ensures StartsWithWakeWord(ws + w + " " + command)
    ensures RemoveWakeWord(ws + w + " " + command) == command
  {
    var text := ws + w + " " + command;
    TrimAddressed(ws, w, command);
    var t := Trim(text);
    WakeWordLeads(text, w);
    assert |w| == |Lower(w)| == 6;
    if command == [] {
      assert t[6..] == [];
    } else {
      CommandAfterWakeWord(w, command);
    }
  }

  lemma CommandAfterWakeWord(w: string, command: string)
    requires |w| == 6
    requires command != [] && !IsTrimmable(command[0]) && !IsTrimmable(command[|command| - 1])
    ensures Trim((w + " " + command)[6..]) == command
  {
    assert (w + " " + command)[6..] == [' '] + command;
    TrimStartAfterBlank([' '], command);
    TrimEndOfClean(command);
  }

  /** A text whose trimmed form starts with a wake word starts with a wake word. */
  lemma WakeWordLeads(text: string, w: string)
    requires IsWakeWord(w)
    requires StartsWith(Trim(text), w)
    ensures StartsWithWakeWord(text)
  {
    var t := Trim(text);
    LowerTrimCommute(text);
    LowerPrefix(t, |w|);
    assert Lower(t)[..6] == Lower(w);
  }

  /** Trimming an addressed utterance leaves the wake word and, when there is one, the command. */
  lemma TrimAddressed(ws: string, w: string, command: string)
    requires forall i :: 0 <= i < |ws| ==> IsTrimmable(ws[i])
    requires IsWakeWord(w)
    requires command == [] || (!IsTrimmable(command[0]) && !IsTrimmable(command[|command| - 1]))
    ensures Trim(ws + w + " " + command) == if command == [] then w else w + " " + command
    ensures StartsWith(Trim(ws + w + " " + command), w)
  {
    assert |w| == 6;
    assert !IsTrimmable(w[0]) && !IsTrimmable(w[5]) by {
      assert Lower(w)[0] == LowerChar(w[0]) && Lower(w)[5] == LowerChar(w[5]);
    }
    TrimBlankThenWord(ws, w, command);
    if command != [] {
      assert (w + " " + command)[..|w|] == w;
    }
  }

  /** Blanks in front of a clean word, a space and a clean or empty rest trim to the word and the rest. */
  lemma TrimBlankThenWord(ws: string, w: string, command: string)
    requires forall i :: 0 <= i < |ws| ==> IsTrimmable(ws[i])
    requires |w| > 0 && !IsTrimmable(w[0]) && !IsTrimmable(w[|w| - 1])
    requires command == [] || (!IsTrimmable(command[0]) && !IsTrimmable(command[|command| - 1]))
    ensures Trim(ws + w + " " + command) == if command == [] then w else w + " " + command
  {
    var body := w + " " + command;
    assert TrimStart(ws + w + " " + command) == body by {
      assert ws + w + " " + command == ws + body;
      TrimStartAfterBlank(ws, body);
    }
    if command == [] {
      assert TrimEnd(body) == w by {
        assert body[..|body| - 1] == w;
        TrimEndOfClean(w);
      }
    } else {
      TrimEndOfClean(body);
    }
  }

  // ---------------------------------------------------------------------------
  // Local replies
  // ---------------------------------------------------------------------------

  /** What a recognised text is answered with when the backend is not used. */
  datatype LocalAction = WakeReply | SayHello | SayName | SayFarewell | Delegate(text: string)

  /** A group of phrases and the reply they trigger. */
  datatype Rule = Rule(phrases: seq<string>, action: LocalAction)

  const GreetingPhrases: seq<string> := ["hey yarvis", "hola yarvis", "oye yarvis"]
  const HelloPhrases: seq<string> := ["say hello", "di hola", "saluda"]
  const NamePhrases: seq<string> := ["cómo te llamas", "cuál es tu nombre"]
  const FarewellPhrases: seq<string> := ["adiós", "adios", "hasta luego", "chao", "termina", "eso es todo"]

  /** The phrase groups in the order they are checked. */
  const LocalRules: seq<Rule> :=
    [Rule(GreetingPhrases, WakeReply), Rule(HelloPhrases, SayHello),
     Rule(NamePhrases, SayName), Rule(FarewellPhrases, SayFarewell)]

  /** The action of the first rule, in order, one of whose phrases occurs in `l`. */
  function FirstRule(l: string, rules: seq<Rule>): (r: Option<LocalAction>)
    ensures r.None? <==> forall k :: 0 <= k < |rules| ==> !ContainsAny(l, rules[k].phrases)
    ensures r.Some? ==> exists k :: 0 <= k < |rules| && ContainsAny(l, rules[k].phrases) && r.value == rules[k].action
                                    && forall j :: 0 <= j < k ==> !ContainsAny(l, rules[j].phrases)
  {
    if |rules| == 0 then None
    else if ContainsAny(l, rules[0].phrases) then Some(rules[0].action)
    else
      var r := FirstRule(l, rules[1..]);
      assert forall k :: 1 <= k < |rules| ==> rules[1..][k - 1] == rules[k];
      if r.Some? then
        ghost var k :| 0 <= k < |rules| - 1 && ContainsAny(l, rules[1..][k].phrases) && r.value == rules[1..][k].action
                       && forall j :: 0 <= j < k ==> !ContainsAny(l, rules[1..][j].phrases);
        assert forall j :: 0 <= j < k + 1 ==> !ContainsAny(l, rules[j].phrases) by {
          forall j | 0 < j < k + 1
            ensures !ContainsAny(l, rules[j].phrases)
          {
            assert rules[j] == rules[1..][j - 1];
          }
        }
        r
      else r
  }

  /**
   * `checkForLocalCommands`: the lowered text is checked against greetings,
   * then hello, then the name question, then farewells; anything else goes
   * to the command processor with the text as it was.
   */
  function CheckLocal(text: string): (a: LocalAction)
    ensures a == WakeReply <==> ContainsAny(Lower(text), GreetingPhrases)
    ensures a == SayHello <==> !ContainsAny(Lower(text), GreetingPhrases) && ContainsAny(Lower(text), HelloPhrases)
    ensures a == SayName <==> !ContainsAny(Lower(text), GreetingPhrases) && !ContainsAny(Lower(text), HelloPhrases)
                              && ContainsAny(Lower(text), NamePhrases)
    ensures a == SayFarewell <==> !ContainsAny(Lower(text), GreetingPhrases) && !ContainsAny(Lower(text), HelloPhrases)
                                  && !ContainsAny(Lower(text), NamePhrases) && ContainsAny(Lower(text), FarewellPhrases)
    ensures a.Delegate? ==> a.text == text
  {
    var l := Lower(text);
    match FirstRule(l, LocalRules)
    case Some(action) =>
      assert LocalRules[0].phrases == GreetingPhrases && LocalRules[1].phrases == HelloPhrases;
      assert LocalRules[2].phrases == NamePhrases && LocalRules[3].phrases == FarewellPhrases;
      action
    case None =>
      assert !ContainsAny(l, LocalRules[0].phrases) && !ContainsAny(l, LocalRules[1].phrases);
      assert !ContainsAny(l, LocalRules[2].phrases) && !ContainsAny(l, LocalRules[3].phrases);
      Delegate(text)
  }

  /** The broadcast and the spoken words of each canned reply; delegated text is answered by the processor. */
  function Reply(a: LocalAction): (r: Option<(string, string)>)
    ensures r.None? <==> a.Delegate?
    ensures r.Some? ==> r.value.0 == (if a.WakeReply? then "WAKE: " else "COMMAND: ") + r.value.1
  {
    match a
    case WakeReply => Some(("WAKE: " + WakePrompt, WakePrompt))
    case SayHello => Some(("COMMAND: " + HelloReply, HelloReply))
    case SayName => Some(("COMMAND: " + NameReply, NameReply))
    case SayFarewell => Some(("COMMAND: " + FarewellReply, FarewellReply))
    case Delegate(_) => None
  }

  /** What the processor's callback does with a result: a success is broadcast and spoken, a failure only logged. */
  function ProcessorReply(success: bool, message: string): (r: Option<(string, string)>)
    ensures r.Some? <==> success
    ensures r.Some? ==> r.value.1 == message
  {
    if success then Some(("PROCESSED: " + message, message)) else None
  }

  // ---------------------------------------------------------------------------
  // Routing recognised speech
  // ---------------------------------------------------------------------------

  datatype Route = ToBackend(command: string) | WakeOnly | Local(action: LocalAction)

  /**
   * `processVoiceCommand`: with the backend enabled and connected, a client
   * present and a wake word said, the rest of the text is sent (or the
   * prompt spoken when nothing follows the wake word); everything else is
   * handled locally.
   */
  function RouteSpeech(text: string, enabled: bool, connected: bool, hasClient: bool): (r: Route)
    ensures (r.ToBackend? || r.WakeOnly?) <==> enabled && connected && hasClient && StartsWithWakeWord(text)
    ensures r.ToBackend? ==> r.command == RemoveWakeWord(text) && r.command != ""
    ensures r.WakeOnly? ==> RemoveWakeWord(text) == ""
    ensures r.Local? ==> r.action == CheckLocal(text)
  {
    if enabled && connected && hasClient && StartsWithWakeWord(text) then
      var command := RemoveWakeWord(text);
      if command != "" then ToBackend(command) else WakeOnly
    else Local(CheckLocal(text))
  }

  /** With the backend usable, "Yarvis, <command>" sends exactly the command. */
  lemma AddressedSpeechReachesBackend(ws: string, w: string, command: string)
    requires forall i :: 0 <= i < |ws| ==> IsTrimmable(ws[i])
    requires IsWakeWord(w)
    requires command != [] && !IsTrimmable(command[0]) && !IsTrimmable(command[|command| - 1])
    ensures RouteSpeech(ws + w + " " + command, true, true, true) == ToBackend(command)
  {
    WakeWordRoundTrip(ws, w, command);
  }

  // ---------------------------------------------------------------------------
  // Notifications
  // ---------------------------------------------------------------------------

  const UnknownApp: string := "Una aplicación"
  const NotificationHead: string := "Notificación de "

  /** The local reading of a notification: source, then the title when there is one, then the text. */
  function NotificationText(app: string, title: string, text: string): (r: string)
    ensures StartsWith(r, NotificationHead + app + ". ")
    ensures |r| >= |text| && r[|r| - |text|..] == text
    ensures title == "" <==> |r| == |NotificationHead + app + ". "| + |text|
  {
    var head := NotificationHead + app + ". ";
    var r := head + (if title != "" then title + ". " else "") + text;
    assert r[..|head|] == head;
    r
  }

  /** What the service's settings and connection say about using the backend. */
  datatype Backend = Backend(enabled: bool, connected: bool, bound: bool, hasService: bool, hasClient: bool)

  datatype NotificationOutcome =
    | Ignored
    | Forwarded(app: string, title: string, text: string)   // `client.sendNotification(...)`
    | Dropped                                              // the backend looked usable but there was no client
    | ReadAloud(message: string)                           // broadcast as "NOTIF: " and spoken

  /**
   * The notification receiver: nothing when reading is off or the service is
   * not running; missing fields are filled in; then the notification is
   * either passed to the backend or read aloud.
   */
  function OnNotification(reading: bool, running: bool, app: Option<string>, title: Option<string>,
                          text: Option<string>, b: Backend): (r: NotificationOutcome)
    ensures !reading || !running ==> r == Ignored
    ensures r.Forwarded? ==> b.enabled && b.connected && b.bound && b.hasService && b.hasClient
                             && r == Forwarded(app.GetOr(UnknownApp), title.GetOr(""), text.GetOr(""))
    ensures r.ReadAloud? <==> reading && running && !(b.enabled && b.connected && b.bound && b.hasService)
    ensures r.ReadAloud? ==> r.message == NotificationText(app.GetOr(UnknownApp), title.GetOr(""), text.GetOr(""))
  {
    if !reading || !running then Ignored
    else
      var a := app.GetOr(UnknownApp);
      var ti := title.GetOr("");
      var te := text.GetOr("");
      if b.enabled && b.connected && b.bound && b.hasService then
        (if b.hasClient then Forwarded(a, ti, te) else Dropped)
      else ReadAloud(NotificationText(a, ti, te))
  }

  // ---------------------------------------------------------------------------
  // Conversation flags
  // ---------------------------------------------------------------------------

  datatype Conversation = Conversation(backendConnected: bool, inConversation: bool, sessionId: Option<string>)

  datatype VoiceEvent =
    | StateChanged(connected: bool, authenticated: bool)
    | LinkLost                                           // `onDisconnected`
    | Started(startedId: string, greeting: Option<string>)
    | Ended(endedId: string, farewell: Option<string>, reason: string)

  datatype Output = Broadcast(text: string) | Speak(words: string) | ConnectionBroadcast(up: bool)

  /** The conversation flags agree: in a conversation exactly when a session is known. */
  predicate Consistent(c: Conversation)
  {
    c.inConversation <==> c.sessionId.Some?
  }

  /** Words are spoken only when present and non-empty. */
  function SpeakIf(words: Option<string>): (r: seq<Output>)
    ensures r != [] <==> words.Some? && words.value != ""
  {
    if words.Some? && words.value != "" then [Speak(words.value)] else []
  }

  /**
   * The callbacks that move the conversation flags: the backend counts as
   * connected only once authenticated, a lost link or an ended conversation
   * forgets the session, and a started one records it.
   */
  function OnVoiceEvent(c: Conversation, e: VoiceEvent): (r: (Conversation, seq<Output>))
    ensures e.StateChanged? ==> r.0.backendConnected == e.authenticated
    ensures e.StateChanged? && e.connected ==> r.0.inConversation == c.inConversation && r.0.sessionId == c.sessionId
    ensures (e.StateChanged? && !e.connected) || e.LinkLost? || e.Ended? ==> !r.0.inConversation && r.0.sessionId.None?
    ensures e.Started? ==> r.0.inConversation && r.0.sessionId == Some(e.startedId)
    ensures !e.StateChanged? ==> r.0.backendConnected == c.backendConnected
    ensures Consistent(c) ==> Consistent(r.0)
  {
    match e
    case StateChanged(connected, authenticated) =>
      var c1 := c.(backendConnected := authenticated);
      (if connected then c1 else c1.(inConversation := false, sessionId := None), [ConnectionBroadcast(authenticated)])
    case LinkLost => (c.(inConversation := false, sessionId := None), [])
    case Started(sid, greeting) =>
      (c.(inConversation := true, sessionId := Some(sid)), [Broadcast("CONVERSATION_START: " + sid)] + SpeakIf(greeting))
    case Ended(_, farewell, reason) =>
      (c.(inConversation := false, sessionId := None), [Broadcast("CONVERSATION_END: " + reason)] + SpeakIf(farewell))
  }

  /** The flags stay consistent over any run of callbacks. */
  lemma {:induction false} ConversationStaysConsistent(c: Conversation, events: seq<VoiceEvent>)
    requires Consistent(c)
    ensures Consistent(Replay(c, events))
    decreases |events|
  {
    if |events| > 0 {
      ConversationStaysConsistent(OnVoiceEvent(c, events[0]).0, events[1..]);
    }
  }

  function Replay(c: Conversation, events: seq<VoiceEvent>): Conversation
    decreases |events|
  {
    if |events| == 0 then c else Replay(OnVoiceEvent(c, events[0]).0, events[1..])
  }
}
