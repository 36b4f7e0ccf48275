/**
 * `YarvisWebSocketClient`: the client's connection bookkeeping as a state
 * machine. Each public call, transport callback and timer firing is an event;
 * a step yields the next state and the effects it causes, in order. Timers
 * are counts of pending tasks rather than times, the clock is an argument of
 * the send events, and the connection object is reduced to whether it exists
 * and whether its link is up.
 */
module SessionClient {
  import opened Wrappers
  import opened Json
  import opened Messages

  const ReconnectDelayMs: nat := 5000
  const PingIntervalMs: nat := 30000
  const NotConnectedError: string := "No hay conexión con el servidor"
  const ConnectionErrorPrefix: string := "Error de conexión: "

  datatype Client = Client(
    shouldBeConnected: bool,
    hasConnection: bool,            // `connection != null`
    linkUp: bool,                   // `connection.isConnected()`
    activeSessionId: Option<string>,
    pingTasks: nat,                 // ping tasks scheduled and not cancelled
    reconnectTasks: nat,            // reconnect tasks scheduled, not yet run or cancelled
    hasListener: bool)

  const Initial := Client(false, false, false, None, 0, 0, false)

  /** `isConnected()`. */
  predicate IsConnected(c: Client)
  {
    c.hasConnection && c.linkUp
  }

  /** What the listener is told, on the main thread. */
  datatype Notice =
    | Connected
    | Disconnected
    | GotResponse(response: Inbound)
    | GotAction(action: string, params: Option<string>)
    | GotError(message: string)
    | ConversationStarted(sessionId: string, greeting: string, show: Option<ShowContent>)
    | ConversationEnded(sessionId: string, farewell: string, reason: string)

  /** What a step does to the outside world. */
  datatype Effect =
    | Sent(message: ClientMessage)  // `connection.send(m.toJson())`
    | Notify(notice: Notice)
    | Dial                          // a new connection is created and `connect()` is called on it
    | Hangup                        // `connection.close()`

  datatype Event =
    | SetListener(present: bool)
    | Connect(constructs: bool)     // `constructs`: the URI parses and the connection object is created
    | Disconnect
    | Destroy
    | SendVoice(text: string, now: int)
    | SendChat(text: string, now: int)
    | SendNotification(app: string, title: string, text: string)
    | EndSession(reason: Option<string>)
    | Opened
    | MessageArrived(doc: Result<Object>)
    | ClosedByPeer(code: int, closeReason: string)
    | Failed(detail: string)
    | LinkLost                      // the read loop ends at end of stream: `connected` drops, no callback
    | PingDue
    | ReconnectDue(constructs: bool)

  datatype Step = Step(client: Client, effects: seq<Effect>)

  /** The pending-task bookkeeping keeps at most one task of each kind, and reconnects only while wanted. */
  predicate Valid(c: Client)
  {
    && c.pingTasks <= 1
    && c.reconnectTasks <= 1
    && (c.reconnectTasks > 0 ==> c.shouldBeConnected)
  }

  function Tell(c: Client, n: Notice): seq<Effect>
  {
    if c.hasListener then [Notify(n)] else []
  }

  /** `startPingTask`: cancel the current ping task, then schedule a new one. */
  function StartPingTask(c: Client): (r: Client)
    ensures r.pingTasks == 1
    ensures r == c.(pingTasks := r.pingTasks)
  {
    var stopped := c.(pingTasks := 0);
    stopped.(pingTasks := stopped.pingTasks + 1)
  }

  /**
   * `scheduleReconnect`: nothing unless the client should be connected;
   * otherwise cancel the pending reconnect and schedule a new one.
   */
  function ScheduleReconnect(c: Client): (r: Client)
    ensures !c.shouldBeConnected ==> r == c
    ensures c.shouldBeConnected ==> r.reconnectTasks == 1
    ensures r == c.(reconnectTasks := r.reconnectTasks)
  {
    if !c.shouldBeConnected then c
    else
      var stopped := c.(reconnectTasks := 0);
      stopped.(reconnectTasks := stopped.reconnectTasks + 1)
  }

  /**
   * `doConnect`: nothing when already connected; otherwise a new connection is
   * dialled, or, when it cannot be created, a reconnect is scheduled.
   */
  function DoConnect(c: Client, constructs: bool): (r: Step)
    ensures IsConnected(c) ==> r == Step(c, [])
    ensures Dial in r.effects <==> !IsConnected(c) && constructs
    ensures !IsConnected(c) && !constructs ==> r.client == ScheduleReconnect(c)
    ensures !IsConnected(c) && constructs ==> r.client.hasConnection && !r.client.linkUp
    ensures r.client.activeSessionId == c.activeSessionId
  {
    if IsConnected(c) then Step(c, [])
    else if constructs then Step(c.(hasConnection := true, linkUp := false), [Dial])
    else Step(ScheduleReconnect(c), [])
  }

  /** `disconnect`: stop wanting a connection, cancel both timers, forget the session, close and drop the connection. */
  function DoDisconnect(c: Client): (r: Step)
    ensures !r.client.shouldBeConnected && r.client.pingTasks == 0 && r.client.reconnectTasks == 0
    ensures r.client.activeSessionId.None? && !IsConnected(r.client)
    ensures r.effects == (if c.hasConnection then [Hangup] else [])
    ensures r.client.hasListener == c.hasListener
  {
    var cleared := c.(shouldBeConnected := false, pingTasks := 0, reconnectTasks := 0, activeSessionId := None);
    if c.hasConnection then Step(cleared.(hasConnection := false, linkUp := false), [Hangup])
    else Step(cleared, [])
  }

  /**
   * `sendVoiceCommand` and `sendChatMessage`: exactly one message carrying the
   * active session when connected; otherwise only an error notice.
   */
  function SendCommand(c: Client, m: ClientMessage): (r: Step)
    requires m.VoiceCommand? || m.ChatMessage?
    ensures r.client == c
    ensures IsConnected(c) ==> r.effects == [Sent(m)]
    ensures !IsConnected(c) && c.hasListener ==> r.effects == [Notify(GotError(NotConnectedError))]
    ensures !IsConnected(c) && !c.hasListener ==> r.effects == []
  {
    if IsConnected(c) then Step(c, [Sent(m)]) else Step(c, Tell(c, GotError(NotConnectedError)))
  }

  /** The `params` of an action as its listener sees them: the object's text, or null. */
  function ParamsText(params: Option<Object>, render: Render): (r: Option<string>)
    ensures r.Some? <==> params.Some?
  {
    if params.Some? then Some(render(JObj(params.value))) else None
  }

  /**
   * `handleServerMessage`: a start makes its session the active one, an end
   * clears the active session only when it names it, and each understood
   * message is passed on to the listener.
   */
  function HandleServerMessage(c: Client, m: Option<Inbound>, render: Render): (r: Step)
    ensures m.Some? && m.value.InStart? ==> r.client.activeSessionId == Some(m.value.sessionId)
    ensures m.Some? && m.value.InEnd? ==>
              r.client.activeSessionId == (if c.activeSessionId == Some(m.value.sessionId) then None
                                           else c.activeSessionId)
    ensures (m.None? || !(m.value.InStart? || m.value.InEnd?)) ==> r.client == c
    ensures r.client == c.(activeSessionId := r.client.activeSessionId)
    ensures forall e :: e in r.effects ==> e.Notify?
    ensures m.None? || m.value.InPong? || !c.hasListener ==> r.effects == []
    ensures c.hasListener && m.Some? ==>
              match m.value
              case InResponse(_, _, _, _, _) => r.effects == [Notify(GotResponse(m.value))]
              case InStart(sid, greeting, _, show) => r.effects == [Notify(ConversationStarted(sid, greeting, show))]
              case InEnd(sid, farewell, reason) => r.effects == [Notify(ConversationEnded(sid, farewell, reason))]
              case InAction(action, params) => r.effects == [Notify(GotAction(action, ParamsText(params, render)))]
              case InError(message) => r.effects == [Notify(GotError(message))]
              case InPong => r.effects == []
  {
    match m
    case None => Step(c, [])
    case Some(InResponse(_, _, _, _, _)) => Step(c, Tell(c, GotResponse(m.value)))
    case Some(InStart(sid, greeting, _, show)) =>
      var c1 := c.(activeSessionId := Some(sid));
      Step(c1, Tell(c1, ConversationStarted(sid, greeting, show)))
    case Some(InEnd(sid, farewell, reason)) =>
      var c1 := if c.activeSessionId == Some(sid) then c.(activeSessionId := None) else c;
      Step(c1, Tell(c1, ConversationEnded(sid, farewell, reason)))
    case Some(InAction(action, params)) => Step(c, Tell(c, GotAction(action, ParamsText(params, render))))
    case Some(InError(message)) => Step(c, Tell(c, GotError(message)))
    case Some(InPong) => Step(c, [])
  }

  /**
   * One event. Only `SetListener` changes the listener, the listener is told
   * only when one is set, and a dial always leaves a wanted connection
   * object whose link is not yet up.
   */
  function Next(c: Client, e: Event, render: Render): (r: Step)
    ensures r.client.hasListener == (if e.SetListener? then e.present else c.hasListener)
    ensures (exists x :: x in r.effects && x.Notify?) ==> c.hasListener
    ensures Dial in r.effects ==> r.client.shouldBeConnected && r.client.hasConnection && !r.client.linkUp
  {
    match e
    case SetListener(present) => Step(c.(hasListener := present), [])
    case Connect(constructs) => DoConnect(c.(shouldBeConnected := true), constructs)
    case Disconnect => DoDisconnect(c)
    case Destroy => DoDisconnect(c)
    case SendVoice(text, now) => SendCommand(c, VoiceCommand(text, now, c.activeSessionId))
    case SendChat(text, now) => SendCommand(c, ChatMessage(text, now, c.activeSessionId))
    case SendNotification(app, title, text) =>
      Step(c, if IsConnected(c) then [Sent(Notification(app, title, text))] else [])
    case EndSession(reason) =>
      if c.activeSessionId.Some? && IsConnected(c) then
        Step(c.(activeSessionId := None), [Sent(EndConversationRequest(c.activeSessionId, reason))])
      else Step(c, [])
    case Opened =>
      var c1 := StartPingTask(c.(linkUp := true));
      Step(c1, Tell(c1, Connected))
    case MessageArrived(doc) => HandleServerMessage(c, ParseServerMessage(doc, render), render)
    case ClosedByPeer(_, _) =>
      var c1 := c.(linkUp := false, pingTasks := 0, activeSessionId := None);
      Step(ScheduleReconnect(c1), Tell(c1, Disconnected))
    case Failed(detail) =>
      var c1 := c.(linkUp := false);
      Step(ScheduleReconnect(c1), Tell(c1, GotError(ConnectionErrorPrefix + detail)))
    case LinkLost => Step(c.(linkUp := false), [])
    case PingDue =>
      if c.pingTasks == 0 then Step(c, [])
      else Step(c, if IsConnected(c) then [Sent(Ping)] else [])
    case ReconnectDue(constructs) =>
      if c.reconnectTasks == 0 then Step(c, [])
      else
        var ran := c.(reconnectTasks := 0);
        if ran.shouldBeConnected then DoConnect(ran, constructs) else Step(ran, [])
  }

  /** Every step keeps at most one ping task and one reconnect task, and reconnects only while wanted. */
  lemma NextValid(c: Client, e: Event, render: Render)
    requires Valid(c)
    ensures Valid(Next(c, e, render).client)
  {
  }

  /** Nothing is ever written to the server unless the client is connected. */
  lemma SendsOnlyWhenConnected(c: Client, e: Event, render: Render)
    ensures forall x :: x in Next(c, e, render).effects && x.Sent? ==> IsConnected(c)
  {
  }

  /** Voice and chat messages carry the active session at the time of sending. */
  lemma CommandsCarrySession(c: Client, text: string, now: int, render: Render)
    requires IsConnected(c)
    ensures Next(c, SendVoice(text, now), render).effects == [Sent(VoiceCommand(text, now, c.activeSessionId))]
    ensures Next(c, SendChat(text, now), render).effects == [Sent(ChatMessage(text, now, c.activeSessionId))]
  {
  }

  /**
   * `endConversation` sends one request naming the active session and clears
   * it when there is one and the client is connected; otherwise nothing changes.
   */
  lemma EndConversationGated(c: Client, reason: Option<string>, render: Render)
    ensures var r := Next(c, EndSession(reason), render);
            if c.activeSessionId.Some? && IsConnected(c) then
              r.client.activeSessionId.None?
              && r.effects == [Sent(EndConversationRequest(c.activeSessionId, reason))]
            else r == Step(c, [])
  {
  }

  /**
   * `onClose` drops pinging and the session; `onError` leaves both alone. Both
   * reconnect if wanted. The listener hears "disconnected" after a close and
   * the prefixed error text after an error.
   */
  lemma CloseAndErrorDiffer(c: Client, code: int, reason: string, detail: string, render: Render)
    ensures var r := Next(c, ClosedByPeer(code, reason), render).client;
            r.pingTasks == 0 && r.activeSessionId.None? && !IsConnected(r)
            && (c.shouldBeConnected ==> r.reconnectTasks == 1)
    ensures var r := Next(c, Failed(detail), render).client;
            r.pingTasks == c.pingTasks && r.activeSessionId == c.activeSessionId && !IsConnected(r)
            && (c.shouldBeConnected ==> r.reconnectTasks == 1)
    ensures Next(c, ClosedByPeer(code, reason), render).effects
            == if c.hasListener then [Notify(Disconnected)] else []
    ensures Next(c, Failed(detail), render).effects
            == if c.hasListener then [Notify(GotError(ConnectionErrorPrefix + detail))] else []
  {
  }

  /**
   * `onOpen`: the link is up, exactly one ping task is pending, and the
   * listener, if any, hears "connected"; nothing else changes.
   */
  lemma OpenStartsPinging(c: Client, render: Render)
    ensures Next(c, Opened, render)
            == Step(c.(linkUp := true, pingTasks := 1), if c.hasListener then [Notify(Connected)] else [])
  {
  }

  /** The state and effects after a run of events, starting from `c`. */
  function Run(c: Client, events: seq<Event>, render: Render): (r: Step)
    decreases |events|
  {
    if |events| == 0 then Step(c, [])
    else
      var first := Next(c, events[0], render);
      var rest := Run(first.client, events[1..], render);
      Step(rest.client, first.effects + rest.effects)
  }

  /** A state that has given up on the connection: not wanted and no reconnect pending. */
  predicate Quiet(c: Client)
  {
    !c.shouldBeConnected && c.reconnectTasks == 0
  }

  /**
   * After `disconnect`, as long as `connect` is not called again, no
   * connection is ever dialled and no reconnect is ever pending, whatever the
   * transport and the timers do.
   */
  lemma {:induction false} StaysDisconnected(c: Client, events: seq<Event>, render: Render)
    requires Quiet(c)
    requires forall i :: 0 <= i < |events| ==> !events[i].Connect?
    ensures Quiet(Run(c, events, render).client)
    ensures Dial !in Run(c, events, render).effects
    decreases |events|
  {
    if |events| > 0 {
      var first := Next(c, events[0], render);
      assert Quiet(first.client) && Dial !in first.effects;
      StaysDisconnected(first.client, events[1..], render);
    }
  }

  /**
   * A link that ends at end of stream tells nobody and schedules nothing,
   * but the client no longer counts as connected: a command then reports
   * the not-connected error, and `connect` dials again.
   */
  lemma LinkLostIsSilentButDisconnects(c: Client, text: string, now: int, render: Render)
    requires IsConnected(c) && c.hasListener
    ensures var lost := Next(c, LinkLost, render);
            && lost.effects == []
            && lost.client == c.(linkUp := false)
            && !IsConnected(lost.client)
            && Next(lost.client, SendVoice(text, now), render).effects == [Notify(GotError(NotConnectedError))]
            && Next(lost.client, Connect(true), render).effects == [Dial]
  {
  }

  /** `disconnect` leads to a quiet state, from any state. */
  lemma DisconnectQuiets(c: Client, render: Render)
    ensures Quiet(Next(c, Disconnect, render).client)
    ensures Quiet(Next(c, Destroy, render).client)
  {
  }
}
