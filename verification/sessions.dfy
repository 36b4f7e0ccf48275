/**
 * The backend's `SessionManager`: conversation sessions stored by id, and
 * indexed by client in a second map from client id to the set of that
 * client's session ids. Both are JavaScript collections, so iteration follows
 * insertion order. The clock (`Date.now()`) and `uuidv4()` are arguments.
 */
module Sessions {
  import opened Wrappers
  import Json
  import opened Messages
  import OM = OrderedMap

  datatype Initiator = ByUser | BySystem   // wake word, or a workflow push

  datatype Session = Session(
    id: string,
    clientId: string,
    startedAt: int,
    lastActivityAt: int,
    initiatedBy: Initiator,
    context: Option<Json.Object>)

  datatype Manager = Manager(
    sessions: OM.OMap<Session>,
    byClient: OM.OMap<seq<string>>,
    timeoutMs: int)

  const DefaultTimeoutMs: int := 5 * 60 * 1000

  function NewManager(timeoutMs: int): (r: Manager)
    ensures Valid(r) && |r.sessions.keys| == 0
  {
    Manager(OM.Empty(), OM.Empty(), timeoutMs)
  }

  /** Every stored session is filed under its own id. */
  ghost predicate StoredById(m: Manager)
  {
    forall id | id in m.sessions.values :: m.sessions.values[id].id == id
  }

  /** Every indexed id names a session of that client, and no indexed set is empty. */
  ghost predicate Indexed(m: Manager)
  {
    && (forall c | c in m.byClient.values :: m.byClient.values[c] != [] && OM.Distinct(m.byClient.values[c]))
    && (forall c, id | c in m.byClient.values && id in m.byClient.values[c] ::
          id in m.sessions.values && m.sessions.values[id].clientId == c)
  }

  /** Every session is indexed under its client. */
  ghost predicate Covered(m: Manager)
  {
    forall id | id in m.sessions.values ::
      m.sessions.values[id].clientId in m.byClient.values &&
      id in m.byClient.values[m.sessions.values[id].clientId]
  }

  ghost predicate Valid(m: Manager)
  {
    OM.Valid(m.sessions) && OM.Valid(m.byClient) && StoredById(m) && Indexed(m) && Covered(m)
  }

  /** A session of this client is stored. */
  ghost predicate ClientHasSession(m: Manager, clientId: string)
  {
    exists id | id in m.sessions.values :: m.sessions.values[id].clientId == clientId
  }

  /** The ids indexed under a client, in insertion order; none when it has no entry. */
  function ClientIds(m: Manager, clientId: string): seq<string>
  {
    OM.Get(m.byClient, clientId).GetOr([])
  }

  /** `createSession`: a new session starting now, indexed under its client. */
  function CreateSession(m: Manager, clientId: string, initiatedBy: Initiator, context: Option<Json.Object>,
                         newId: string, now: int): (r: (Manager, Session))
    ensures r.1 == Session(newId, clientId, now, now, initiatedBy, context)
    ensures GetSession(r.0, newId) == Some(r.1)
    ensures forall id | id != newId :: GetSession(r.0, id) == GetSession(m, id)
    ensures newId in ClientIds(r.0, clientId)
    ensures HasActiveSession(r.0, clientId)
  {
    var session := Session(newId, clientId, now, now, initiatedBy, context);
    var ids := OM.Add(ClientIds(m, clientId), newId);
    (m.(sessions := OM.Set(m.sessions, newId, session),
        byClient := OM.Set(m.byClient, clientId, ids)), session)
  }

  /** A fresh id keeps the index exact. */
  lemma CreateValid(m: Manager, clientId: string, initiatedBy: Initiator, context: Option<Json.Object>,
                    newId: string, now: int)
    requires Valid(m) && !OM.Has(m.sessions, newId)
    ensures Valid(CreateSession(m, clientId, initiatedBy, context, newId, now).0)
  {
    var r := CreateSession(m, clientId, initiatedBy, context, newId, now).0;
    assert forall c | c in m.byClient.values :: newId !in m.byClient.values[c];
    assert Indexed(r) by {
      forall c, id | c in r.byClient.values && id in r.byClient.values[c]
        ensures id in r.sessions.values && r.sessions.values[id].clientId == c
      {
        if c != clientId {
          assert OM.Get(r.byClient, c) == OM.Get(m.byClient, c);
          assert id != newId;
          assert OM.Get(r.sessions, id) == OM.Get(m.sessions, id);
        } else if id != newId {
          assert id in ClientIds(m, clientId);
          assert OM.Get(r.sessions, id) == OM.Get(m.sessions, id);
        }
      }
    }
    assert Covered(r) by {
      forall id | id in r.sessions.values
        ensures r.sessions.values[id].clientId in r.byClient.values &&
                id in r.byClient.values[r.sessions.values[id].clientId]
      {
        if id != newId {
          assert OM.Get(r.sessions, id) == OM.Get(m.sessions, id);
          var c := m.sessions.values[id].clientId;
          if c != clientId {
            assert OM.Get(r.byClient, c) == OM.Get(m.byClient, c);
          }
        }
      }
    }
  }

  /** `getSession`. */
  function GetSession(m: Manager, id: string): (r: Option<Session>)
    ensures r.Some? <==> OM.Has(m.sessions, id)
  {
    OM.Get(m.sessions, id)
  }

  /**
   * The loop of `getActiveSessionForClient` over the ids in order: a session
   * replaces the one kept so far only when strictly more recent.
   */
  function Latest(sessions: map<string, Session>, ids: seq<string>): (r: Option<Session>)
    ensures r.None? <==> forall i | 0 <= i < |ids| :: ids[i] !in sessions
    ensures r.Some? ==> forall j | 0 <= j < |ids| && ids[j] in sessions ::
                          sessions[ids[j]].lastActivityAt <= r.value.lastActivityAt
    ensures r.Some? ==> exists i | 0 <= i < |ids| ::
                          && ids[i] in sessions && sessions[ids[i]] == r.value
                          && forall j | 0 <= j < i && ids[j] in sessions ::
                               sessions[ids[j]].lastActivityAt < r.value.lastActivityAt
  {
    if ids == [] then None
    else
      var front := ids[..|ids| - 1];
      var best := Latest(sessions, front);
      var id := ids[|ids| - 1];
      assert forall j | 0 <= j < |front| :: ids[j] == front[j];
      if id in sessions && (best.None? || sessions[id].lastActivityAt > best.value.lastActivityAt)
      then Some(sessions[id])
      else best
  }

  /**
   * `getActiveSessionForClient`: the most recently active of the client's
   * sessions, the earliest created among equals; nothing when it has none.
   */
  function ActiveSession(m: Manager, clientId: string): (r: Option<Session>)
    ensures r.None? <==> forall id | id in ClientIds(m, clientId) :: id !in m.sessions.values
  {
    var ids := ClientIds(m, clientId);
    if |ids| == 0 then None else Latest(m.sessions.values, ids)
  }

  /** Over a valid index, the active session is one of the client's, and one exists iff it has any. */
  lemma ActiveSessionOfClient(m: Manager, clientId: string)
    requires Valid(m)
    ensures ActiveSession(m, clientId).Some? <==> ClientHasSession(m, clientId)
    ensures ActiveSession(m, clientId).Some? ==>
              && ActiveSession(m, clientId).value.clientId == clientId
              && GetSession(m, ActiveSession(m, clientId).value.id) == ActiveSession(m, clientId)
              && forall id | id in m.sessions.values && m.sessions.values[id].clientId == clientId ::
                   m.sessions.values[id].lastActivityAt <= ActiveSession(m, clientId).value.lastActivityAt
  {
    var ids := ClientIds(m, clientId);
    if ClientHasSession(m, clientId) {
      var id :| id in m.sessions.values && m.sessions.values[id].clientId == clientId;
      assert id in ids;
    }
    var r := ActiveSession(m, clientId);
    if r.Some? {
      forall id | id in m.sessions.values && m.sessions.values[id].clientId == clientId
        ensures m.sessions.values[id].lastActivityAt <= r.value.lastActivityAt
      {
        assert id in ids;
        var j :| 0 <= j < |ids| && ids[j] == id;
      }
    }
  }

  /** `updateActivity`: the session's last activity becomes now; an unknown id changes nothing. */
  function UpdateActivity(m: Manager, id: string, now: int): (r: Manager)
    ensures GetSession(m, id).None? ==> r == m
    ensures GetSession(m, id).Some? ==> GetSession(r, id) == Some(GetSession(m, id).value.(lastActivityAt := now))
    ensures forall other | other != id :: GetSession(r, other) == GetSession(m, other)
    ensures r.byClient == m.byClient && r.sessions.keys == m.sessions.keys
  {
    match GetSession(m, id)
    case None => m
    case Some(s) => m.(sessions := OM.Set(m.sessions, id, s.(lastActivityAt := now)))
  }

  lemma UpdateActivityValid(m: Manager, id: string, now: int)
    requires Valid(m)
    ensures Valid(UpdateActivity(m, id, now))
  {
    var r := UpdateActivity(m, id, now);
    forall other | other in r.sessions.values
      ensures other in m.sessions.values && r.sessions.values[other].clientId == m.sessions.values[other].clientId
      ensures r.sessions.values[other].id == other
    {
      assert GetSession(r, other).Some?;
    }
  }

  /**
   * `endSession`: removes the session and its id from its client's set, and
   * the client's entry when the set becomes empty; returns the removed
   * session, or nothing for an unknown id. The reason is only logged.
   */
  function EndSession(m: Manager, id: string): (r: (Manager, Option<Session>))
    ensures r.1 == GetSession(m, id)
    ensures r.1.None? ==> r.0 == m
    ensures GetSession(r.0, id).None?
    ensures forall other | other != id :: GetSession(r.0, other) == GetSession(m, other)
    ensures r.0.timeoutMs == m.timeoutMs
  {
    match GetSession(m, id)
    case None => (m, None)
    case Some(s) =>
      var sessions := OM.Delete(m.sessions, id).0;
      var byClient :=
        match OM.Get(m.byClient, s.clientId)
        case None => m.byClient
        case Some(ids) =>
          var rest := OM.Remove(ids, id);
          if |rest| == 0 then OM.Delete(m.byClient, s.clientId).0 else OM.Set(m.byClient, s.clientId, rest);
      (m.(sessions := sessions, byClient := byClient), Some(s))
  }

  lemma EndSessionValid(m: Manager, id: string)
    requires Valid(m)
    ensures Valid(EndSession(m, id).0)
  {
    if GetSession(m, id).Some? {
      EndSessionIndex(m, id);
      EndIndexed(m, id);
      EndCovered(m, id);
    }
  }

  /** Ending a session changes the index only under its own client, which keeps the other ids. */
  lemma EndSessionIndex(m: Manager, id: string)
    requires Valid(m) && GetSession(m, id).Some?
    ensures var r := EndSession(m, id).0;
            var c := m.sessions.values[id].clientId;
            && OM.Valid(r.byClient)
            && (forall c2 | c2 != c :: OM.Get(r.byClient, c2) == OM.Get(m.byClient, c2))
            && (c in r.byClient.values ==> r.byClient.values[c] == OM.Remove(m.byClient.values[c], id) != [])
            && (c !in r.byClient.values ==> OM.Remove(m.byClient.values[c], id) == [])
            && OM.Distinct(OM.Remove(m.byClient.values[c], id))
  {
    OM.RemoveKeepsDistinct(m.byClient.values[m.sessions.values[id].clientId], id);
  }

  lemma EndIndexed(m: Manager, id: string)
    requires Valid(m) && GetSession(m, id).Some?
    ensures Indexed(EndSession(m, id).0)
  {
    var r := EndSession(m, id).0;
    EndSessionIndex(m, id);
    forall c2, id2 | c2 in r.byClient.values && id2 in r.byClient.values[c2]
      ensures id2 in r.sessions.values && r.sessions.values[id2].clientId == c2
    {
      assert id2 in m.byClient.values[c2];
      assert id2 != id;
      assert GetSession(r, id2) == GetSession(m, id2);
    }
  }

  lemma EndCovered(m: Manager, id: string)
    requires Valid(m) && GetSession(m, id).Some?
    ensures Covered(EndSession(m, id).0)
  {
    var r := EndSession(m, id).0;
    var c := m.sessions.values[id].clientId;
    EndSessionIndex(m, id);
    forall id2 | id2 in r.sessions.values
      ensures r.sessions.values[id2].clientId in r.byClient.values &&
              id2 in r.byClient.values[r.sessions.values[id2].clientId]
    {
      assert GetSession(r, id2) == GetSession(m, id2);
      var c2 := m.sessions.values[id2].clientId;
      if c2 == c {
        assert id2 in OM.Remove(m.byClient.values[c], id);
      }
    }
  }

  /** Ends each listed session in turn, collecting the ones that existed. */
  function EndAll(m: Manager, ids: seq<string>): (r: (Manager, seq<Session>))
    ensures |r.1| <= |ids|
    ensures forall id | id in ids :: GetSession(r.0, id).None?
    ensures forall id | id !in ids :: GetSession(r.0, id) == GetSession(m, id)
    ensures r.0.timeoutMs == m.timeoutMs
    decreases |ids|
  {
    if ids == [] then (m, [])
    else
      var (m1, ended) := EndSession(m, ids[0]);
      var (m2, rest) := EndAll(m1, ids[1..]);
      (m2, (if ended.Some? then [ended.value] else []) + rest)
  }

  lemma {:induction false} EndAllValid(m: Manager, ids: seq<string>)
    requires Valid(m)
    ensures Valid(EndAll(m, ids).0)
    decreases |ids|
  {
    if ids != [] {
      EndSessionValid(m, ids[0]);
      EndAllValid(EndSession(m, ids[0]).0, ids[1..]);
    }
  }

  /** The sessions stored under distinct ids, in the order of the ids. */
  function StoredAt(sessions: map<string, Session>, ids: seq<string>): (r: seq<Session>)
    ensures |r| <= |ids|
  {
    if ids == [] then []
    else (if ids[0] in sessions then [sessions[ids[0]]] else []) + StoredAt(sessions, ids[1..])
  }

  /** Ending distinct ids returns exactly the sessions stored under them, in order. */
  lemma {:induction false} EndAllReturnsStored(m: Manager, ids: seq<string>)
    requires OM.Distinct(ids)
    ensures EndAll(m, ids).1 == StoredAt(m.sessions.values, ids)
    decreases |ids|
  {
    if ids != [] {
      OM.DistinctTail(ids);
      var m1 := EndSession(m, ids[0]).0;
      forall id | id in ids[1..]
        ensures (id in m1.sessions.values) == (id in m.sessions.values)
        ensures id in m.sessions.values ==> m1.sessions.values[id] == m.sessions.values[id]
      {
        assert GetSession(m1, id) == GetSession(m, id);
      }
      StoredAtSame(m.sessions.values, m1.sessions.values, ids[1..]);
      EndAllReturnsStored(m1, ids[1..]);
    }
  }

  lemma {:induction false} StoredAtSame(a: map<string, Session>, b: map<string, Session>, ids: seq<string>)
    requires forall id | id in ids :: (id in a) == (id in b) && (id in a ==> a[id] == b[id])
    ensures StoredAt(a, ids) == StoredAt(b, ids)
  {
    if ids != [] {
      StoredAtSame(a, b, ids[1..]);
    }
  }

  /**
   * `endSessionsForClient`: ends the client's sessions in the order they were
   * created. Deleting the current element of a JavaScript `Set` does not
   * disturb the rest of its iteration, so the loop visits the set as it was.
   */
  function EndSessionsForClient(m: Manager, clientId: string): (r: (Manager, seq<Session>))
    ensures OM.Get(m.byClient, clientId).None? ==> r == (m, [])
    ensures forall id | id !in ClientIds(m, clientId) :: GetSession(r.0, id) == GetSession(m, id)
  {
    match OM.Get(m.byClient, clientId)
    case None => (m, [])
    case Some(ids) => EndAll(m, ids)
  }

  /**
   * Over a valid index, exactly the client's sessions are ended and returned,
   * every other session is kept, and the client has no session left.
   */
  lemma EndSessionsForClientSpec(m: Manager, clientId: string)
    requires Valid(m)
    ensures var (r, ended) := EndSessionsForClient(m, clientId);
            && Valid(r)
            && !HasActiveSession(r, clientId)
            && (forall id :: OM.Has(r.sessions, id) <==>
                               OM.Has(m.sessions, id) && m.sessions.values[id].clientId != clientId)
            && ended == StoredAt(m.sessions.values, ClientIds(m, clientId))
            && forall s | s in ended :: s.clientId == clientId
  {
    var (r, ended) := EndSessionsForClient(m, clientId);
    var ids := ClientIds(m, clientId);
    EndAllValid(m, ids);
    if clientId in m.byClient.values {
      EndAllReturnsStored(m, ids);
      StoredAtOwned(m, clientId, ids);
    }
    EndSessionsForClientKeepsOthers(m, clientId);
    HasActiveSessionIff(r, clientId);
  }

  /** The sessions left are exactly those of other clients. */
  lemma EndSessionsForClientKeepsOthers(m: Manager, clientId: string)
    requires Valid(m)
    ensures var r := EndSessionsForClient(m, clientId).0;
            && (forall id :: OM.Has(r.sessions, id) <==>
                               OM.Has(m.sessions, id) && m.sessions.values[id].clientId != clientId)
            && !ClientHasSession(r, clientId)
  {
    var r := EndSessionsForClient(m, clientId).0;
    var ids := ClientIds(m, clientId);
    forall id
      ensures OM.Has(r.sessions, id) <==> OM.Has(m.sessions, id) && m.sessions.values[id].clientId != clientId
      ensures OM.Has(r.sessions, id) ==> r.sessions.values[id].clientId != clientId
    {
      if id in ids {
        assert GetSession(r, id).None?;
      } else {
        assert GetSession(r, id) == GetSession(m, id);
      }
    }
  }

  lemma {:induction false} StoredAtOwned(m: Manager, clientId: string, ids: seq<string>)
    requires Valid(m) && clientId in m.byClient.values
    requires forall id | id in ids :: id in m.byClient.values[clientId]
    ensures forall s | s in StoredAt(m.sessions.values, ids) :: s.clientId == clientId
  {
    if ids != [] {
      StoredAtOwned(m, clientId, ids[1..]);
    }
  }

  /** `getAllSessions`, in creation order. */
  function AllSessions(m: Manager): (r: seq<Session>)
    requires OM.Valid(m.sessions)
    ensures |r| == |m.sessions.keys|
    ensures forall i | 0 <= i < |r| :: GetSession(m, m.sessions.keys[i]) == Some(r[i])
  {
    OM.Values(m.sessions)
  }

  /** `hasActiveSession`: the client has a non-empty entry in the index. */
  predicate HasActiveSession(m: Manager, clientId: string)
  {
    OM.Has(m.byClient, clientId) && |m.byClient.values[clientId]| > 0
  }

  /** Over a valid index, the index entry tells exactly whether the client has a session. */
  lemma HasActiveSessionIff(m: Manager, clientId: string)
    requires Valid(m)
    ensures HasActiveSession(m, clientId) <==> ClientHasSession(m, clientId)
  {
    if HasActiveSession(m, clientId) {
      var id := m.byClient.values[clientId][0];
      assert id in m.sessions.values;
    }
  }

  /** Inactive for longer than the timeout. */
  predicate IsExpired(s: Session, now: int, timeoutMs: int)
  {
    now - s.lastActivityAt > timeoutMs
  }

  /** The ids of expired sessions, in creation order. */
  function ExpiredIds(sessions: map<string, Session>, keys: seq<string>, now: int, timeoutMs: int): (r: seq<string>)
    ensures forall id :: id in r <==> id in keys && id in sessions && IsExpired(sessions[id], now, timeoutMs)
    ensures OM.Distinct(keys) ==> OM.Distinct(r)
  {
    if keys == [] then []
    else
      var rest := ExpiredIds(sessions, keys[1..], now, timeoutMs);
      var k := keys[0];
      if k in sessions && IsExpired(sessions[k], now, timeoutMs) then
        if OM.Distinct(keys) then (OM.DistinctTail(keys); OM.DistinctCons(k, rest); [k] + rest)
        else [k] + rest
      else
        (if OM.Distinct(keys) then OM.DistinctTail(keys); rest else rest)
  }

  /** One line of the cleanup report. */
  datatype ExpiredEntry = ExpiredEntry(sessionId: string, clientId: string)

  /**
   * `cleanupExpiredSessions`: ends, in creation order, every session that has
   * been inactive for longer than the timeout, and reports each one with its
   * client. Deleting the current entry of a JavaScript `Map` does not disturb
   * the rest of its iteration, so the sessions examined are those stored when
   * the cleanup began.
   */
  function CleanupExpired(m: Manager, now: int): (r: (Manager, seq<ExpiredEntry>))
    ensures |r.1| == |ExpiredIds(m.sessions.values, m.sessions.keys, now, m.timeoutMs)|
    ensures forall i | 0 <= i < |r.1| ::
              var id := ExpiredIds(m.sessions.values, m.sessions.keys, now, m.timeoutMs)[i];
              r.1[i] == ExpiredEntry(id, m.sessions.values[id].clientId)
  {
    var ids := ExpiredIds(m.sessions.values, m.sessions.keys, now, m.timeoutMs);
    (EndAll(m, ids).0, seq(|ids|, i requires 0 <= i < |ids| => ExpiredEntry(ids[i], m.sessions.values[ids[i]].clientId)))
  }

  /** Exactly the expired sessions go; every other session stays as it was. */
  lemma CleanupExpiredSpec(m: Manager, now: int)
    requires Valid(m)
    ensures var r := CleanupExpired(m, now).0;
            && Valid(r)
            && (forall id | OM.Has(m.sessions, id) && IsExpired(m.sessions.values[id], now, m.timeoutMs) ::
                  !OM.Has(r.sessions, id))
            && (forall id | !(OM.Has(m.sessions, id) && IsExpired(m.sessions.values[id], now, m.timeoutMs)) ::
                  GetSession(r, id) == GetSession(m, id))
            && (forall id | OM.Has(r.sessions, id) :: !IsExpired(r.sessions.values[id], now, r.timeoutMs))
  {
    var ids := ExpiredIds(m.sessions.values, m.sessions.keys, now, m.timeoutMs);
    EndAllValid(m, ids);
  }
}
