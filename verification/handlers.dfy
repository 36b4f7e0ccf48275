/**
 * The backend's client-message handlers: what each message from a client
 * sends back, what it does to the session index, and what it asks of the
 * workflow. The workflow's answer and the fresh `uuidv4()` are arguments; the
 * answer is used only when the workflow is asked (`request` is then set).
 * Messages are collected in the order `sendResponse` is called.
 */
module Handlers {
  import opened Wrappers
  import opened Text
  import opened Messages
  import opened Workflow
  import S = Sessions
  import OM = OrderedMap
  import Mock = MockWorkflow

  const EndPhrases: seq<string> := [
    "adiós", "adios", "hasta luego", "chao", "chau",
    "termina", "terminamos", "eso es todo", "nada más",
    "gracias eso es todo", "ya no necesito nada",
    "bye", "goodbye", "that's all"]

  const DefaultError: string := "Error procesando comando"
  const UserFarewell: string := "Hasta luego, que tengas un buen día."

  /** `detectEndConversationIntent`: the lowered text contains an end phrase. */
  predicate EndIntent(text: string)
  {
    ContainsAny(Lower(text), EndPhrases)
  }

  /** No end phrase has an upper-case ASCII letter, so lowering leaves each unchanged. */
  lemma PhrasesAreLower(k: nat)
    requires k < |EndPhrases|
    ensures Lower(EndPhrases[k]) == EndPhrases[k]
  {
  }

  /** A text that says an end phrase, whatever surrounds it, is an end intent. */
  lemma EndIntentWhenSaid(before: string, after: string, k: nat)
    requires k < |EndPhrases|
    ensures EndIntent(before + EndPhrases[k] + after)
  {
    var p := EndPhrases[k];
    var t := before + p + after;
    var l := Lower(t);
    PhrasesAreLower(k);
    forall i | 0 <= i < |p|
      ensures l[|before| + i] == p[i]
    {
      assert t[|before| + i] == p[i];
      assert Lower(p)[i] == LowerChar(p[i]);
    }
    assert l[|before|..|before| + |p|] == p;
    assert MatchesAt(l, |before|, p);
  }

  /** Whatever the client sends: the messages sent back, the sessions after, the workflow call. */
  datatype Outcome = Outcome(sessions: S.Manager, sent: seq<ServerMessage>, request: Option<Request>)

  /** The workflow asked to end the conversation and there is a session to end. */
  predicate AgentEnds(result: WorkflowResponse, active: Option<string>)
  {
    result.success && result.endConversation == Some(true) && active.Some?
  }

  /**
   * `processWorkflowResponse`: a failure sends one error; an agent end sends
   * a response and then an end of conversation and ends the session;
   * otherwise a response is sent when there is text, then an action when
   * there is one. The flag is the success of the result.
   */
  function ProcessWorkflowResponse(m: S.Manager, result: WorkflowResponse, active: Option<string>, speak: bool,
                                   messageId: string): (r: (S.Manager, seq<ServerMessage>, bool))
    ensures r.2 <==> result.success
    ensures !result.success ==>
              r.0 == m && r.1 == [ErrorMessage(if Truthy(result.error) then result.error.value else DefaultError)]
    ensures AgentEnds(result, active) ==>
              && r.0 == S.EndSession(m, active.value).0
              && |r.1| == 2
              && r.1[0] == Response(if Truthy(result.farewell) then result.farewell.value
                                    else if Truthy(result.response) then result.response.value else "",
                                    speak, active, Some(messageId), result.show)
              && r.1[1] == EndConversation(active.value, result.farewell, AgentDecision)
    ensures result.success && !AgentEnds(result, active) ==>
              && r.0 == m
              && |r.1| == (if Truthy(result.response) then 1 else 0) + (if Truthy(result.action) then 1 else 0)
              && (Truthy(result.response) ==>
                    r.1[0] == Response(result.response.value, speak, active, Some(messageId), result.show))
              && (Truthy(result.action) ==> r.1[|r.1| - 1] == ActionMessage(result.action.value, result.params))
    ensures forall i | 0 <= i < |r.1| :: !r.1[i].ActionMessage? || !AgentEnds(result, active)
  {
    if !result.success then
      (m, [ErrorMessage(Or(result.error, DefaultError))], false)
    else if result.endConversation == Some(true) && active.Some? then
      var text := Or(result.farewell, Or(result.response, ""));
      (S.EndSession(m, active.value).0,
       [Response(text, speak, active, Some(messageId), result.show),
        EndConversation(active.value, result.farewell, AgentDecision)],
       true)
    else
      var response := if Truthy(result.response)
                      then [Response(result.response.value, speak, active, Some(messageId), result.show)] else [];
      var action := if Truthy(result.action) then [ActionMessage(result.action.value, result.params)] else [];
      (m, response + action, true)
  }

  function IdOf(s: Option<S.Session>): Option<string>
  {
    if s.Some? then Some(s.value.id) else None
  }

  /**
   * `handleTextMessage`: the client's active session, if any, is touched
   * first; an end intent then ends it with no call to the workflow; anything
   * else goes to the workflow with the session's id and context, and the
   * answer is processed.
   */
  function HandleText(m: S.Manager, clientId: string, text: string, speak: bool, production: bool, now: int,
                      reply: WorkflowResponse, messageId: string): (r: Outcome)
    ensures var active := S.ActiveSession(m, clientId);
            r.request.None? <==> active.Some? && EndIntent(text)
    ensures var active := S.ActiveSession(m, clientId);
            active.Some? && EndIntent(text) ==>
              && r.sent == [EndConversation(active.value.id, Some(UserFarewell), UserRequest)]
              && S.GetSession(r.sessions, active.value.id).None?
    ensures var active := S.ActiveSession(m, clientId);
            r.request.Some? ==>
              r.request.value == VoiceRequest(text, IdOf(active), if active.Some? then active.value.context else None,
                                              production)
    ensures S.ActiveSession(m, clientId).None? ==> r.sessions == m
    ensures var active := S.ActiveSession(m, clientId);
            active.Some? && S.GetSession(r.sessions, active.value.id).Some? ==>
              S.GetSession(r.sessions, active.value.id).value.lastActivityAt == now
    ensures var active := S.ActiveSession(m, clientId);
            var touched := if active.Some? then S.UpdateActivity(m, active.value.id, now) else m;
            !(active.Some? && EndIntent(text)) ==>
              var answer := ProcessWorkflowResponse(touched, reply, IdOf(active), speak, messageId);
              r.sessions == answer.0 && r.sent == answer.1
  {
    var active := S.ActiveSession(m, clientId);
    var touched := if active.Some? then S.UpdateActivity(m, active.value.id, now) else m;
    if active.Some? && EndIntent(text) then
      Outcome(S.EndSession(touched, active.value.id).0,
              [EndConversation(active.value.id, Some(UserFarewell), UserRequest)], None)
    else
      var context := if active.Some? then active.value.context else None;
      var request := VoiceRequest(text, IdOf(active), context, production);
      var (after, sent, _) := ProcessWorkflowResponse(touched, reply, IdOf(active), speak, messageId);
      Outcome(after, sent, Some(request))
  }

  /**
   * `handleNotification`: the workflow is always asked; a successful answer
   * with text opens a system-initiated conversation when its action is
   * `START_CONVERSATION`, and is otherwise spoken; any other answer sends
   * nothing.
   */
  function HandleNotification(m: S.Manager, clientId: string, app: string, title: string, text: string,
                              production: bool, now: int, reply: WorkflowResponse, newId: string): (r: Outcome)
    ensures r.request == Some(NotificationRequest(app, title, text, production))
    ensures !(reply.success && Truthy(reply.response)) ==> r.sessions == m && r.sent == []
    ensures reply.success && Truthy(reply.response) && reply.action == Some(Mock.StartConversationAction) ==>
              && r.sent == [StartConversation(newId, reply.response, None, None)]
              && S.GetSession(r.sessions, newId) == Some(S.Session(newId, clientId, now, now, S.BySystem, None))
              && S.HasActiveSession(r.sessions, clientId)
    ensures reply.success && Truthy(reply.response) && reply.action != Some(Mock.StartConversationAction) ==>
              r.sessions == m && r.sent == [Response(reply.response.value, true, None, None, None)]
  {
    var request := Some(NotificationRequest(app, title, text, production));
    if reply.success && Truthy(reply.response) then
      if reply.action == Some(Mock.StartConversationAction) then
        var (after, session) := S.CreateSession(m, clientId, S.BySystem, None, newId, now);
        Outcome(after, [StartConversation(session.id, Some(reply.response.value), None, None)], request)
      else
        Outcome(m, [Response(reply.response.value, true, None, None, None)], request)
    else Outcome(m, [], request)
  }

  /**
   * `handleClientMessage`: ping gets pong; a voice command is spoken back and
   * a chat message is not; a notification goes to its handler; an end of
   * conversation ends the named session, whoever owns it, and sends nothing.
   * `production` is the message's `production` field, false when absent.
   */
  function HandleClientMessage(m: S.Manager, clientId: string, msg: ClientMessage, production: bool, now: int,
                               reply: WorkflowResponse, freshId: string): (r: Outcome)
    ensures msg.Ping? ==> r == Outcome(m, [Pong], None)
    ensures msg.VoiceCommand? ==> r == HandleText(m, clientId, msg.text, true, production, now, reply, freshId)
    ensures msg.ChatMessage? ==> r == HandleText(m, clientId, msg.text, false, production, now, reply, freshId)
    ensures msg.Notification? ==>
              r == HandleNotification(m, clientId, msg.app, msg.title, msg.text, production, now, reply, freshId)
    ensures msg.EndConversationRequest? ==>
              && r.sent == [] && r.request.None?
              && (msg.sessionId.Some? ==> S.GetSession(r.sessions, msg.sessionId.value).None?)
              && forall id | msg.sessionId != Some(id) :: S.GetSession(r.sessions, id) == S.GetSession(m, id)
  {
    match msg
    case Ping => Outcome(m, [Pong], None)
    case VoiceCommand(text, _, _) => HandleText(m, clientId, text, true, production, now, reply, freshId)
    case ChatMessage(text, _, _) => HandleText(m, clientId, text, false, production, now, reply, freshId)
    case Notification(app, title, text) =>
      HandleNotification(m, clientId, app, title, text, production, now, reply, freshId)
    case EndConversationRequest(sid, _) =>
      match sid
      case None => Outcome(m, [], None)
      case Some(id) =>
        if S.GetSession(m, id).Some? then Outcome(S.EndSession(m, id).0, [], None) else Outcome(m, [], None)
  }

  /** Every handler keeps the session index exact, given a fresh id. */
  lemma HandleClientMessageValid(m: S.Manager, clientId: string, msg: ClientMessage, production: bool, now: int,
                                 reply: WorkflowResponse, freshId: string)
    requires S.Valid(m) && !OM.Has(m.sessions, freshId)
    ensures S.Valid(HandleClientMessage(m, clientId, msg, production, now, reply, freshId).sessions)
  {
    match msg
    case Ping =>
    case VoiceCommand(text, _, _) => HandleTextValid(m, clientId, text, true, production, now, reply, freshId);
    case ChatMessage(text, _, _) => HandleTextValid(m, clientId, text, false, production, now, reply, freshId);
    case Notification(app, title, text) =>
      S.CreateValid(m, clientId, S.BySystem, None, freshId, now);
    case EndConversationRequest(sid, _) =>
      if sid.Some? {
        S.EndSessionValid(m, sid.value);
      }
  }

  lemma HandleTextValid(m: S.Manager, clientId: string, text: string, speak: bool, production: bool, now: int,
                        reply: WorkflowResponse, messageId: string)
    requires S.Valid(m)
    ensures S.Valid(HandleText(m, clientId, text, speak, production, now, reply, messageId).sessions)
  {
    var active := S.ActiveSession(m, clientId);
    if active.Some? {
      var touched := S.UpdateActivity(m, active.value.id, now);
      S.UpdateActivityValid(m, active.value.id, now);
      S.EndSessionValid(touched, active.value.id);
    }
  }

  /** A client can end a session that belongs to another client. */
  lemma EndsAnotherClientsSession(m: S.Manager, clientId: string, other: S.Session, production: bool, now: int,
                                  reply: WorkflowResponse, freshId: string)
    requires S.Valid(m) && S.GetSession(m, other.id) == Some(other) && other.clientId != clientId
    ensures var r := HandleClientMessage(m, clientId, EndConversationRequest(Some(other.id), None), production, now,
                                         reply, freshId);
            S.GetSession(r.sessions, other.id).None? && r.sent == []
  {
  }

  /** Saying goodbye in an active conversation ends it without asking the workflow. */
  lemma GoodbyeEndsConversation(m: S.Manager, clientId: string, before: string, after: string, now: int,
                                reply: WorkflowResponse, freshId: string)
    requires S.Valid(m) && S.ClientHasSession(m, clientId)
    ensures var r := HandleClientMessage(m, clientId, VoiceCommand(before + "adiós" + after, now, None), false, now,
                                         reply, freshId);
            && r.request.None?
            && |r.sent| == 1 && r.sent[0].EndConversation? && r.sent[0].reason == UserRequest
            && !S.GetSession(r.sessions, r.sent[0].sessionId).Some?
  {
    S.ActiveSessionOfClient(m, clientId);
    EndIntentWhenSaid(before, after, 0);
  }

  /**
   * With the mock workflow, a notification from an important app opens a
   * conversation with a fresh system session and a greeting naming the app
   * and the title; from any other app nothing is sent and nothing changes.
   */
  lemma MockNotificationOpensConversation(m: S.Manager, clientId: string, app: string, title: string, text: string,
                                          now: int, freshId: string)
    ensures var r := HandleClientMessage(m, clientId, Notification(app, title, text), false, now,
                                         Mock.SendNotification(app, title), freshId);
            && (Mock.IsImportant(app) ==>
                  && r.sent == [StartConversation(freshId, Some(Mock.NotificationPrefix + app + ": " + title), None, None)]
                  && S.GetSession(r.sessions, freshId).value.initiatedBy == S.BySystem
                  && S.HasActiveSession(r.sessions, clientId))
            && (!Mock.IsImportant(app) ==> r.sent == [] && r.sessions == m)
  {
    var p := Mock.NotificationPrefix;
    assert (p + app + ": " + title)[0] == p[0];
  }
}
