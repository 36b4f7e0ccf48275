/**
 * What the backend asks of the automation workflow and what it gets back
 * (`WorkflowResponse`). The workflow itself, a webhook or the mock client, is
 * reached through these values.
 */
module Workflow {
  import opened Wrappers
  import Json
  import opened Messages

  datatype WorkflowResponse = WorkflowResponse(
    success: bool,
    response: Option<string>,
    action: Option<string>,
    params: Option<Json.Object>,
    endConversation: Option<bool>,
    farewell: Option<string>,
    show: Option<ShowContent>,
    error: Option<string>)

  /** A bare success, with no field but `success`. */
  const Acknowledged := WorkflowResponse(true, None, None, None, None, None, None, None)

  /** JavaScript truthiness of an optional string: present and not empty. */
  predicate Truthy(o: Option<string>)
  {
    o.Some? && o.value != ""
  }

  /** JavaScript `a || b` for an optional string `a`. */
  function Or(a: Option<string>, b: string): (r: string)
    ensures Truthy(a) ==> r == a.value
    ensures !Truthy(a) ==> r == b
  {
    if Truthy(a) then a.value else b
  }

  /** A call into the workflow: `sendVoiceCommand` or `sendNotification`. */
  datatype Request =
    | VoiceRequest(text: string, sessionId: Option<string>, context: Option<Json.Object>, production: bool)
    | NotificationRequest(app: string, title: string, text: string, production: bool)
}
