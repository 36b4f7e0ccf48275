/**
 * The backend's `ConnectionManager`: one WebSocket per client id, in a
 * JavaScript `Map`. A socket is a handle of any type; whether it is open at
 * the moment of a send, and whether that send throws, are functions of the
 * handle given at the call. Serialising the message is not modelled: what a
 * send delivers is recorded as the client id it went to.
 */
module Connections {
  import opened Wrappers
  import OM = OrderedMap

  datatype ReadyState = Connecting | Open | Closing | Closed

  datatype ClientConnection<W> = ClientConnection(ws: W, id: string)

  datatype Manager<W> = Manager(connections: OM.OMap<ClientConnection<W>>)

  /** The sockets as they are at the moment of a send. */
  datatype Sockets<!W> = Sockets(state: W -> ReadyState, sendThrows: W -> bool)

  function Empty<W>(): (r: Manager<W>)
    ensures OM.Valid(r.connections) && Size(r) == 0
  {
    Manager(OM.Empty())
  }

  /** `add`: stores the connection under the client id, replacing any earlier one in place. */
  function Add<W>(cm: Manager<W>, clientId: string, ws: W): (r: (Manager<W>, ClientConnection<W>))
    ensures r.1 == ClientConnection(ws, clientId)
    ensures Get(r.0, clientId) == Some(r.1)
    ensures forall other | other != clientId :: Get(r.0, other) == Get(cm, other)
    ensures Size(r.0) == Size(cm) + (if Has(cm, clientId) then 0 else 1)
    ensures OM.Valid(cm.connections) ==> OM.Valid(r.0.connections)
  {
    var conn := ClientConnection(ws, clientId);
    (Manager(OM.Set(cm.connections, clientId, conn)), conn)
  }

  /** `remove`: reports whether there was a connection. */
  function Remove<W>(cm: Manager<W>, clientId: string): (r: (Manager<W>, bool))
    ensures r.1 <==> Has(cm, clientId)
    ensures !Has(r.0, clientId)
    ensures forall other | other != clientId :: Get(r.0, other) == Get(cm, other)
    ensures OM.Valid(cm.connections) ==> OM.Valid(r.0.connections)
  {
    var (m, existed) := OM.Delete(cm.connections, clientId);
    (Manager(m), existed)
  }

  /** Adding a new client and removing it again leaves the manager as it was. */
  lemma AddThenRemove<W>(cm: Manager<W>, clientId: string, ws: W)
    requires OM.Valid(cm.connections) && !Has(cm, clientId)
    ensures Remove(Add(cm, clientId, ws).0, clientId) == (cm, true)
  {
    OM.SetThenDelete(cm.connections, clientId, ClientConnection(ws, clientId));
  }

  function Get<W>(cm: Manager<W>, clientId: string): Option<ClientConnection<W>>
  {
    OM.Get(cm.connections, clientId)
  }

  predicate Has<W>(cm: Manager<W>, clientId: string)
  {
    OM.Has(cm.connections, clientId)
  }

  function Size<W>(cm: Manager<W>): nat
  {
    OM.Size(cm.connections)
  }

  /** `getAllClientIds`, in the order the clients were first added. */
  function AllClientIds<W>(cm: Manager<W>): (r: seq<string>)
    requires OM.Valid(cm.connections)
    ensures |r| == Size(cm)
    ensures forall id :: id in r <==> Has(cm, id)
  {
    cm.connections.keys
  }

  /** A send to this connection goes through: the socket is open and does not throw. */
  predicate Delivers<W>(sockets: Sockets<W>, conn: ClientConnection<W>)
  {
    sockets.state(conn.ws) == Open && !sockets.sendThrows(conn.ws)
  }

  /** `sendTo`: true exactly when the client is known and the send goes through. */
  function SendTo<W>(cm: Manager<W>, sockets: Sockets<W>, clientId: string): (r: bool)
    ensures r <==> Has(cm, clientId) && Delivers(sockets, cm.connections.values[clientId])
    ensures !Has(cm, clientId) ==> !r
  {
    match Get(cm, clientId)
    case None => false
    case Some(conn) =>
      if sockets.state(conn.ws) == Open then !sockets.sendThrows(conn.ws) else false
  }

  /** The clients, in order, whose sends go through. */
  function Reached<W>(cm: Manager<W>, sockets: Sockets<W>, ids: seq<string>): (r: seq<string>)
    requires forall id | id in ids :: id in cm.connections.values
    ensures |r| <= |ids|
    ensures forall id :: id in r <==> id in ids && Delivers(sockets, cm.connections.values[id])
  {
    if ids == [] then []
    else
      var conn := cm.connections.values[ids[0]];
      var ok := sockets.state(conn.ws) == Open && !sockets.sendThrows(conn.ws);
      (if ok then [ids[0]] else []) + Reached(cm, sockets, ids[1..])
  }

  /**
   * `broadcast`: sends to every open connection in insertion order and
   * counts the sends that did not throw; returns the count and the clients
   * reached.
   */
  function Broadcast<W>(cm: Manager<W>, sockets: Sockets<W>): (r: (nat, seq<string>))
    requires OM.Valid(cm.connections)
    ensures r.0 == |r.1| <= Size(cm)
    ensures forall id :: id in r.1 <==> Has(cm, id) && Delivers(sockets, cm.connections.values[id])
    ensures OM.Distinct(r.1)
  {
    ReachedDistinct(cm, sockets, cm.connections.keys);
    var reached := Reached(cm, sockets, cm.connections.keys);
    (|reached|, reached)
  }

  /** A broadcast reaches exactly the clients a `sendTo` would reach. */
  lemma BroadcastAgreesWithSendTo<W>(cm: Manager<W>, sockets: Sockets<W>, clientId: string)
    requires OM.Valid(cm.connections)
    ensures clientId in Broadcast(cm, sockets).1 <==> SendTo(cm, sockets, clientId)
  {
  }

  /** A broadcast reaches each client at most once. */
  lemma {:induction false} ReachedDistinct<W>(cm: Manager<W>, sockets: Sockets<W>, ids: seq<string>)
    requires forall id | id in ids :: id in cm.connections.values
    requires OM.Distinct(ids)
    ensures OM.Distinct(Reached(cm, sockets, ids))
  {
    if ids != [] {
      OM.DistinctTail(ids);
      ReachedDistinct(cm, sockets, ids[1..]);
      var rest := Reached(cm, sockets, ids[1..]);
      if Delivers(sockets, cm.connections.values[ids[0]]) {
        OM.DistinctCons(ids[0], rest);
      }
    }
  }

  /** Every connection open and quiet: a broadcast counts every client. */
  lemma BroadcastReachesAllWhenOpen<W>(cm: Manager<W>, sockets: Sockets<W>)
    requires OM.Valid(cm.connections)
    requires forall id | Has(cm, id) :: Delivers(sockets, cm.connections.values[id])
    ensures Broadcast(cm, sockets).0 == Size(cm)
  {
    ReachedAll(cm, sockets, cm.connections.keys);
  }

  lemma {:induction false} ReachedAll<W>(cm: Manager<W>, sockets: Sockets<W>, ids: seq<string>)
    requires forall id | id in ids :: id in cm.connections.values && Delivers(sockets, cm.connections.values[id])
    ensures Reached(cm, sockets, ids) == ids
  {
    if ids != [] {
      ReachedAll(cm, sockets, ids[1..]);
      assert [ids[0]] + ids[1..] == ids;
    }
  }
}
