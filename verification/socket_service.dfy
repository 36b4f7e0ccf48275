/**
 * `WebSocketService`: the foreground service that owns the client. It keeps
 * two flags (connected, authenticated), fans every client event out to its
 * registered listeners, and re-creates the client when the settings change.
 * Listeners are values of any type with equality, compared as
 * `CopyOnWriteArrayList.contains` compares them; the settings store is
 * reduced to the values read from it.
 */
module SocketService {
  import opened Wrappers
  import SessionClient

  datatype Service<L(==)> = Service(
    connected: bool,                // `isConnected`
    authenticated: bool,            // `isAuthenticated`
    hasClient: bool,                // `webSocketClient != null`
    stateListeners: seq<L>,
    messageListeners: seq<L>)

  /** What a message listener is told. The last two kinds come from authentication, which the shown client never reports. */
  datatype Relayed =
    | Relay(notice: SessionClient.Notice)
    | AuthResult(success: bool, message: string)
    | PasswordChangeResult(success: bool, message: string)

  datatype Effect<L> =
    | StateChanged(stateListener: L, connected: bool, authenticated: bool)
    | Forward(messageListener: L, event: Relayed)
    | DestroyClient                 // `webSocketClient.destroy()`
    | StartClient(url: string)      // a new client is created, given this service as its listener, and connected

  datatype Step<L(==)> = Step(service: Service<L>, effects: seq<Effect<L>>)

  predicate NoDuplicates<T(==)>(xs: seq<T>)
  {
    forall i, j :: 0 <= i < j < |xs| ==> xs[i] != xs[j]
  }

  /** `List.remove(Object)`: the first occurrence goes, the rest keep their order. */
  function RemoveFirst<T(==)>(xs: seq<T>, x: T): (r: seq<T>)
    ensures x !in xs ==> r == xs
    ensures x in xs ==> |r| == |xs| - 1
    ensures forall y :: y in r ==> y in xs
  {
    if |xs| == 0 then []
    else if xs[0] == x then xs[1..]
    else [xs[0]] + RemoveFirst(xs[1..], x)
  }

  /** `List.indexOf(Object)` for a value that is present: where it first occurs. */
  function FirstIndex<T(==)>(xs: seq<T>, x: T): (i: nat)
    requires x in xs
    ensures i < |xs| && xs[i] == x && x !in xs[..i]
  {
    if xs[0] == x then 0
    else
      assert x in xs[1..];
      var j := FirstIndex(xs[1..], x);
      assert xs[..j + 1] == [xs[0]] + xs[1..][..j];
      j + 1
  }

  /** Removal cuts out exactly the first occurrence. */
  lemma {:induction false} RemoveFirstCutsFirst<T>(xs: seq<T>, x: T)
    requires x in xs
    ensures var i := FirstIndex(xs, x);
            RemoveFirst(xs, x) == xs[..i] + xs[i + 1..]
    decreases |xs|
  {
    if xs[0] != x {
      assert x in xs[1..];
      RemoveFirstCutsFirst(xs[1..], x);
      var j := FirstIndex(xs[1..], x);
      assert xs[..j + 1] == [xs[0]] + xs[1..][..j];
      assert xs[j + 2..] == xs[1..][j + 1..];
    }
  }

  /** Removing from a list without duplicates removes that value and keeps the others. */
  lemma {:induction false} RemoveFirstNoDuplicates<T>(xs: seq<T>, x: T)
    requires NoDuplicates(xs)
    ensures NoDuplicates(RemoveFirst(xs, x))
    ensures x !in RemoveFirst(xs, x)
    decreases |xs|
  {
    if |xs| > 0 {
      var tail := xs[1..];
      assert NoDuplicates(tail) by {
        forall i, j | 0 <= i < j < |tail|
          ensures tail[i] != tail[j]
        {
          assert tail[i] == xs[i + 1] && tail[j] == xs[j + 1];
        }
      }
      HeadNotInTail(xs);
      if xs[0] != x {
        RemoveFirstNoDuplicates(tail, x);
        PrependAbsent(RemoveFirst(tail, x), xs[0]);
      }
    }
  }

  lemma HeadNotInTail<T>(xs: seq<T>)
    requires NoDuplicates(xs) && |xs| > 0
    ensures xs[0] !in xs[1..]
  {
    forall k | 0 <= k < |xs| - 1
      ensures xs[1..][k] != xs[0]
    {
      assert xs[1..][k] == xs[k + 1];
    }
  }

  lemma PrependAbsent<T>(xs: seq<T>, x: T)
    requires NoDuplicates(xs) && x !in xs
    ensures NoDuplicates([x] + xs)
  {
    var ys := [x] + xs;
    forall i, j | 0 <= i < j < |ys|
      ensures ys[i] != ys[j]
    {
      assert ys[j] == xs[j - 1];
      if i > 0 {
        assert ys[i] == xs[i - 1];
      }
    }
  }

  /** Every state listener is told the current pair of flags, in registration order. */
  function NotifyState<L(==)>(s: Service<L>): (r: seq<Effect<L>>)
    ensures |r| == |s.stateListeners|
    ensures forall i :: 0 <= i < |r| ==> r[i] == StateChanged(s.stateListeners[i], s.connected, s.authenticated)
  {
    seq(|s.stateListeners|, i requires 0 <= i < |s.stateListeners| =>
      StateChanged(s.stateListeners[i], s.connected, s.authenticated))
  }

  /** Every message listener receives the event unchanged, in registration order. */
  function ForwardAll<L(==)>(s: Service<L>, ev: Relayed): (r: seq<Effect<L>>)
    ensures |r| == |s.messageListeners|
    ensures forall i :: 0 <= i < |r| ==> r[i] == Forward(s.messageListeners[i], ev)
  {
    seq(|s.messageListeners|, i requires 0 <= i < |s.messageListeners| => Forward(s.messageListeners[i], ev))
  }

  /** The listeners an event reached, in the order they were called. */
  function Recipients<L>(effects: seq<Effect<L>>): seq<L>
  {
    if |effects| == 0 then []
    else (if effects[0].Forward? then [effects[0].messageListener] else []) + Recipients(effects[1..])
  }

  /** A forwarded event reaches exactly the registered message listeners, each once, in order. */
  lemma {:induction false} ForwardReachesEveryone<L>(s: Service<L>, ev: Relayed)
    ensures Recipients(ForwardAll(s, ev)) == s.messageListeners
    decreases |s.messageListeners|
  {
    var ms := s.messageListeners;
    if |ms| > 0 {
      var rest := s.(messageListeners := ms[1..]);
      ForwardReachesEveryone(rest, ev);
      assert ForwardAll(s, ev)[1..] == ForwardAll(rest, ev);
      assert ms == [ms[0]] + ms[1..];
    }
  }

  /** `addConnectionStateListener`: a new listener is appended and told the current flags at once. */
  function AddStateListener<L(==)>(s: Service<L>, l: L): (r: Step<L>)
    ensures l in s.stateListeners ==> r == Step(s, [])
    ensures l !in s.stateListeners ==>
              r.service == s.(stateListeners := s.stateListeners + [l])
              && r.effects == [StateChanged(l, s.connected, s.authenticated)]
  {
    if l in s.stateListeners then Step(s, [])
    else Step(s.(stateListeners := s.stateListeners + [l]), [StateChanged(l, s.connected, s.authenticated)])
  }

  function RemoveStateListener<L(==)>(s: Service<L>, l: L): (r: Service<L>)
    ensures l !in s.stateListeners ==> r == s
    ensures r == s.(stateListeners := r.stateListeners)
  {
    s.(stateListeners := RemoveFirst(s.stateListeners, l))
  }

  /** `addMessageListener`: appended only when absent; nobody is told anything. */
  function AddMessageListener<L(==)>(s: Service<L>, l: L): (r: Service<L>)
    ensures l in r.messageListeners
    ensures l in s.messageListeners ==> r == s
    ensures l !in s.messageListeners ==> r.messageListeners == s.messageListeners + [l]
    ensures r.stateListeners == s.stateListeners
  {
    if l in s.messageListeners then s else s.(messageListeners := s.messageListeners + [l])
  }

  function RemoveMessageListener<L(==)>(s: Service<L>, l: L): (r: Service<L>)
    ensures l !in s.messageListeners ==> r == s
    ensures r == s.(messageListeners := r.messageListeners)
  {
    s.(messageListeners := RemoveFirst(s.messageListeners, l))
  }

  /** Both listener lists are free of duplicates. */
  predicate Valid<L(==)>(s: Service<L>)
  {
    NoDuplicates(s.stateListeners) && NoDuplicates(s.messageListeners)
  }

  lemma AppendAbsent<T>(xs: seq<T>, x: T)
    requires NoDuplicates(xs) && x !in xs
    ensures NoDuplicates(xs + [x])
  {
    var ys := xs + [x];
    forall i, j | 0 <= i < j < |ys|
      ensures ys[i] != ys[j]
    {
      if j == |xs| {
        assert ys[i] == xs[i];
      }
    }
  }

  /** Registering and unregistering listeners never creates a duplicate. */
  lemma RegistrationKeepsValid<L>(s: Service<L>, l: L)
    requires Valid(s)
    ensures Valid(AddStateListener(s, l).service)
    ensures Valid(AddMessageListener(s, l))
    ensures Valid(RemoveStateListener(s, l))
    ensures Valid(RemoveMessageListener(s, l))
    ensures l !in RemoveStateListener(s, l).stateListeners
    ensures l !in RemoveMessageListener(s, l).messageListeners
  {
    if l !in s.stateListeners {
      AppendAbsent(s.stateListeners, l);
    }
    if l !in s.messageListeners {
      AppendAbsent(s.messageListeners, l);
    }
    RemoveFirstNoDuplicates(s.stateListeners, l);
    RemoveFirstNoDuplicates(s.messageListeners, l);
  }

  /** Adding a state listener twice has the effect of adding it once. */
  lemma AddStateListenerTwice<L>(s: Service<L>, l: L)
    ensures var once := AddStateListener(s, l);
            AddStateListener(once.service, l) == Step(once.service, [])
  {
  }

  /** A URL or password that is null or empty. */
  predicate Missing(v: Option<string>)
  {
    v.None? || v.value == ""
  }

  /**
   * `connect`: nothing at all without a URL and a password; otherwise the old
   * client is destroyed and a new one is started. The flags are left alone.
   */
  function Connect<L(==)>(s: Service<L>, url: Option<string>, password: Option<string>): (r: Step<L>)
    ensures Missing(url) || Missing(password) ==> r == Step(s, [])
    ensures !Missing(url) && !Missing(password) ==>
              && r.service == s.(hasClient := true)
              && r.effects == (if s.hasClient then [DestroyClient] else []) + [StartClient(url.value)]
  {
    if Missing(url) || Missing(password) then Step(s, [])
    else Step(s.(hasClient := true), (if s.hasClient then [DestroyClient] else []) + [StartClient(url.value)])
  }

  /** `disconnect`: both flags drop, the client is destroyed and dropped, and state listeners are told. */
  function Disconnect<L(==)>(s: Service<L>): (r: Step<L>)
    ensures !r.service.connected && !r.service.authenticated && !r.service.hasClient
    ensures r.service.stateListeners == s.stateListeners && r.service.messageListeners == s.messageListeners
    ensures |r.effects| == (if s.hasClient then 1 else 0) + |s.stateListeners|
    ensures forall e :: e in r.effects && e.StateChanged? ==> !e.connected && !e.authenticated
    ensures r.effects == (if s.hasClient then [DestroyClient] else []) + NotifyState(r.service)
  {
    var s1 := s.(connected := false, authenticated := false, hasClient := false);
    Step(s1, (if s.hasClient then [DestroyClient] else []) + NotifyState(s1))
  }

  /** `reconnect`: disconnect, then connect only when enabled. */
  function Reconnect<L(==)>(s: Service<L>, enabled: bool, url: Option<string>, password: Option<string>): (r: Step<L>)
    ensures !enabled ==> r == Disconnect(s)
    ensures !r.service.connected && !r.service.authenticated
    ensures enabled && (Missing(url) || Missing(password)) ==> r == Disconnect(s)
    ensures enabled && !Missing(url) && !Missing(password) ==>
              && r.service == Disconnect(s).service.(hasClient := true)
              && r.effects == Disconnect(s).effects + [StartClient(url.value)]
  {
    var d := Disconnect(s);
    if enabled then
      var c := Connect(d.service, url, password);
      Step(c.service, d.effects + c.effects)
    else d
  }

  /** `updateCredentials`: reconnect with the new settings when enabled, otherwise only disconnect. */
  function UpdateCredentials<L(==)>(s: Service<L>, url: Option<string>, password: Option<string>, enabled: bool): (r: Step<L>)
    ensures !enabled ==> r == Disconnect(s) && StartClient(url.GetOr("")) !in r.effects
    ensures enabled && !Missing(url) && !Missing(password) ==> r.service.hasClient && StartClient(url.value) in r.effects
  {
    if enabled then Reconnect(s, true, url, password) else Disconnect(s)
  }

  /** `isConnected()`: the flag, a client, and that client's own view all agree. */
  predicate IsConnected<L(==)>(s: Service<L>, clientConnected: bool)
  {
    s.connected && s.hasClient && clientConnected
  }

  /** The client's listener callbacks, as the service handles them. */
  function OnClientNotice<L(==)>(s: Service<L>, n: SessionClient.Notice): (r: Step<L>)
    ensures n.Connected? ==> r.service == s.(connected := true)
    ensures n.Disconnected? ==> r.service == s.(connected := false, authenticated := false)
    ensures !n.Connected? && !n.Disconnected? ==> r == Step(s, ForwardAll(s, Relay(n)))
  {
    match n
    case Connected =>
      var s1 := s.(connected := true);
      Step(s1, NotifyState(s1) + ForwardAll(s1, Relay(n)))
    case Disconnected =>
      var s1 := s.(connected := false, authenticated := false);
      Step(s1, NotifyState(s1) + ForwardAll(s1, Relay(n)))
    case _ => Step(s, ForwardAll(s, Relay(n)))
  }

  /** `onAuthResult`: only the authenticated flag follows the result. */
  function OnAuthResult<L(==)>(s: Service<L>, success: bool, message: string): (r: Step<L>)
    ensures r.service == s.(authenticated := success)
    ensures r.effects == NotifyState(r.service) + ForwardAll(r.service, AuthResult(success, message))
  {
    var s1 := s.(authenticated := success);
    Step(s1, NotifyState(s1) + ForwardAll(s1, AuthResult(success, message)))
  }

  /** Every client event reaches every message listener, once and in order, after any state notices. */
  lemma NoticeReachesEveryone<L>(s: Service<L>, n: SessionClient.Notice)
    ensures var r := OnClientNotice(s, n);
            Recipients(r.effects) == s.messageListeners
  {
    var r := OnClientNotice(s, n);
    match n
    case Connected =>
      var s1 := s.(connected := true);
      NoStateRecipients(NotifyState(s1));
      RecipientsAppend(NotifyState(s1), ForwardAll(s1, Relay(n)));
      ForwardReachesEveryone(s1, Relay(n));
    case Disconnected =>
      var s1 := s.(connected := false, authenticated := false);
      NoStateRecipients(NotifyState(s1));
      RecipientsAppend(NotifyState(s1), ForwardAll(s1, Relay(n)));
      ForwardReachesEveryone(s1, Relay(n));
    case _ =>
      ForwardReachesEveryone(s, Relay(n));
  }

  lemma {:induction false} RecipientsAppend<L>(a: seq<Effect<L>>, b: seq<Effect<L>>)
    ensures Recipients(a + b) == Recipients(a) + Recipients(b)
    decreases |a|
  {
    if |a| > 0 {
      var head := if a[0].Forward? then [a[0].messageListener] else [];
      assert (a + b)[1..] == a[1..] + b;
      assert (a + b)[0] == a[0];
      RecipientsAppend(a[1..], b);
      assert Recipients(a + b) == head + Recipients(a[1..] + b);
      assert Recipients(a) == head + Recipients(a[1..]);
    } else {
      assert a + b == b;
    }
  }

  lemma {:induction false} NoStateRecipients<L>(a: seq<Effect<L>>)
    requires forall i :: 0 <= i < |a| ==> a[i].StateChanged?
    ensures Recipients(a) == []
    decreases |a|
  {
    if |a| > 0 {
      NoStateRecipients(a[1..]);
    }
  }

  /** The text of the service's ongoing notification. */
  function StatusText(connected: bool, authenticated: bool, enabled: bool): (t: string)
    ensures authenticated ==> t == "Conectado al backend"
    ensures !authenticated && connected ==> t == "Conectando..."
    ensures !authenticated && !connected ==>
              t == (if enabled then "Desconectado (reconectando...)" else "Backend deshabilitado")
  {
    if authenticated then "Conectado al backend"
    else if connected then "Conectando..."
    else if enabled then "Desconectado (reconectando...)" else "Backend deshabilitado"
  }

  /** After a disconnection the notification never claims a connection. */
  lemma StatusAfterDisconnect<L>(s: Service<L>, enabled: bool)
    ensures var d := Disconnect(s).service;
            StatusText(d.connected, d.authenticated, enabled) != "Conectado al backend"
            && StatusText(d.connected, d.authenticated, enabled) != "Conectando..."
  {
  }
}
