/**
 * `ChatHistoryManager` in memory: the bounded message list, the per-session
 * bookkeeping it keeps beside it, and its queries. The `HashMap` iteration
 * order that `getAllSessions` starts from is an argument.
 */
module ChatHistory {
  import opened Wrappers
  import opened ChatModel

  /** At most this many messages are kept; older ones are dropped first. */
  const MaxMessages: nat := 500
  const MaxTitle: nat := 50

  datatype SessionInfo = SessionInfo(
    id: string,
    startedAt: int,
    lastActivityAt: int,
    title: Option<string>,
    messageCount: nat)

  datatype History = History(messages: seq<ChatRecord>, sessions: map<string, SessionInfo>)

  const Empty := History([], map[])

  /** The messages of `ms` that belong to session `sid`, in order. */
  function InSession(ms: seq<ChatRecord>, sid: string): (r: seq<ChatRecord>)
    ensures |r| <= |ms|
    ensures forall m :: m in r <==> m in ms && m.sessionId == Some(sid)
  {
    if ms == [] then []
    else (if ms[0].sessionId == Some(sid) then [ms[0]] else []) + InSession(ms[1..], sid)
  }

  /** Filtering distributes over concatenation, so it keeps the messages' order. */
  lemma {:induction false} InSessionAppend(a: seq<ChatRecord>, b: seq<ChatRecord>, sid: string)
    ensures InSession(a + b, sid) == InSession(a, sid) + InSession(b, sid)
  {
    if a == [] {
      assert a + b == b;
    } else {
      assert (a + b)[0] == a[0];
      assert (a + b)[1..] == a[1..] + b;
      InSessionAppend(a[1..], b, sid);
    }
  }

  /** Each session is filed under its own id, with a title of at most 50 characters. */
  ghost predicate WellFiled(sessions: map<string, SessionInfo>)
  {
    forall k | k in sessions ::
      sessions[k].id == k && (sessions[k].title.Some? ==> |sessions[k].title.value| <= MaxTitle)
  }

  /** Every message that names a session names a known one. */
  ghost predicate SessionsKnown(ms: seq<ChatRecord>, sessions: map<string, SessionInfo>)
  {
    forall x | x in ms :: x.sessionId.Some? ==> x.sessionId.value in sessions
  }

  /** No session has more messages in the list than it has counted. */
  ghost predicate CountsCover(ms: seq<ChatRecord>, sessions: map<string, SessionInfo>)
  {
    forall k | k in sessions :: |InSession(ms, k)| <= sessions[k].messageCount
  }

  /** The invariant every operation keeps. */
  ghost predicate Valid(h: History)
  {
    && |h.messages| <= MaxMessages
    && WellFiled(h.sessions)
    && SessionsKnown(h.messages, h.sessions)
    && CountsCover(h.messages, h.sessions)
  }

  /** The session title taken from a user's first message: at most 50 characters. */
  function TitleOf(text: string): (t: string)
    ensures |t| <= MaxTitle
    ensures |text| <= MaxTitle ==> t == text
    ensures |text| > MaxTitle ==> |t| == MaxTitle && t[..47] == text[..47] && t[47..] == "..."
  {
    if |text| > MaxTitle then text[..47] + "..." else text
  }

  /** The `while (size > MAX) remove(0)` loop: drops the oldest entries. */
  function KeepLast(ms: seq<ChatRecord>, n: nat): (r: seq<ChatRecord>)
    ensures |r| == if |ms| <= n then |ms| else n
    ensures r == ms[|ms| - |r|..]
  {
    if |ms| > n then KeepLast(ms[1..], n) else ms
  }

  /**
   * The entry of the message's session after `addMessage`: created at the
   * message's time when missing, then stamped and counted, and titled once
   * from the first user message.
   */
  function Touched(sessions: map<string, SessionInfo>, m: ChatRecord, sid: string): (s: SessionInfo)
    ensures s.id == (if sid in sessions then sessions[sid].id else sid)
    ensures s.startedAt == (if sid in sessions then sessions[sid].startedAt else m.timestamp)
    ensures s.lastActivityAt == m.timestamp
    ensures s.messageCount == (if sid in sessions then sessions[sid].messageCount else 0) + 1
    ensures sid in sessions && sessions[sid].title.Some? ==> s.title == sessions[sid].title
    ensures !(sid in sessions && sessions[sid].title.Some?) ==>
              s.title == if IsFromUser(m) then Some(TitleOf(m.text)) else None
  {
    var base := if sid in sessions then sessions[sid] else SessionInfo(sid, m.timestamp, m.timestamp, None, 0);
    var title := if base.title.None? && IsFromUser(m) then Some(TitleOf(m.text)) else base.title;
    base.(lastActivityAt := m.timestamp, messageCount := base.messageCount + 1, title := title)
  }

  /** The session bookkeeping of `addMessage`: only the message's own session changes. */
  function Record(sessions: map<string, SessionInfo>, m: ChatRecord): (r: map<string, SessionInfo>)
    ensures m.sessionId.None? ==> r == sessions
    ensures m.sessionId.Some? ==> r == sessions[m.sessionId.value := Touched(sessions, m, m.sessionId.value)]
  {
    if m.sessionId.None? then sessions
    else sessions[m.sessionId.value := Touched(sessions, m, m.sessionId.value)]
  }

  /**
   * `addMessage`: append, update the message's session, then keep the newest
   * 500, so the new message is last and older ones fall off the front.
   */
  function AddMessage(h: History, m: ChatRecord): (r: History)
    ensures |r.messages| == if |h.messages| < MaxMessages then |h.messages| + 1 else MaxMessages
    ensures r.messages == (h.messages + [m])[|h.messages| + 1 - |r.messages|..]
    ensures r.messages[|r.messages| - 1] == m
    ensures r.sessions == Record(h.sessions, m)
  {
    History(KeepLast(h.messages + [m], MaxMessages), Record(h.sessions, m))
  }

  /** Dropping old messages never adds to a session's share of the list. */
  lemma {:induction false} KeepLastInSession(ms: seq<ChatRecord>, n: nat, k: string)
    ensures |InSession(KeepLast(ms, n), k)| <= |InSession(ms, k)|
  {
    if |ms| > n {
      KeepLastInSession(ms[1..], n, k);
    }
  }

  lemma {:induction false} KeepLastKeepsMembers(ms: seq<ChatRecord>, n: nat)
    ensures forall x | x in KeepLast(ms, n) :: x in ms
  {
    if |ms| > n {
      KeepLastKeepsMembers(ms[1..], n);
    }
  }

  lemma InSessionSnoc(ms: seq<ChatRecord>, m: ChatRecord, k: string)
    ensures |InSession(ms + [m], k)| == |InSession(ms, k)| + (if m.sessionId == Some(k) then 1 else 0)
  {
    InSessionAppend(ms, [m], k);
    assert InSession([m], k) == (if m.sessionId == Some(k) then [m] else []) + InSession([], k);
  }

  /** A session the history does not know has no message in it. */
  lemma UnknownSessionEmpty(ms: seq<ChatRecord>, sessions: map<string, SessionInfo>, k: string)
    requires SessionsKnown(ms, sessions) && k !in sessions
    ensures |InSession(ms, k)| == 0
  {
  }

  lemma RecordWellFiled(sessions: map<string, SessionInfo>, m: ChatRecord)
    requires WellFiled(sessions)
    ensures WellFiled(Record(sessions, m))
  {
  }

  lemma AddKeepsKnown(ms: seq<ChatRecord>, sessions: map<string, SessionInfo>, m: ChatRecord)
    requires SessionsKnown(ms, sessions)
    ensures SessionsKnown(KeepLast(ms + [m], MaxMessages), Record(sessions, m))
  {
    var kept := KeepLast(ms + [m], MaxMessages);
    KeepLastKeepsMembers(ms + [m], MaxMessages);
    forall x | x in kept && x.sessionId.Some?
      ensures x.sessionId.value in Record(sessions, m)
    {
      assert x in ms + [m];
      if x != m {
        assert x in ms;
      }
    }
  }

  lemma AddKeepsCounts(ms: seq<ChatRecord>, sessions: map<string, SessionInfo>, m: ChatRecord)
    requires SessionsKnown(ms, sessions) && CountsCover(ms, sessions)
    ensures CountsCover(KeepLast(ms + [m], MaxMessages), Record(sessions, m))
  {
    var r := Record(sessions, m);
    forall k | k in r
      ensures |InSession(KeepLast(ms + [m], MaxMessages), k)| <= r[k].messageCount
    {
      KeepLastInSession(ms + [m], MaxMessages, k);
      InSessionSnoc(ms, m, k);
      if k !in sessions {
        UnknownSessionEmpty(ms, sessions, k);
      }
    }
  }

  /** Adding a message, however many old ones it drops, keeps the invariant. */
  lemma AddMessageValid(h: History, m: ChatRecord)
    requires Valid(h)
    ensures Valid(AddMessage(h, m))
  {
    RecordWellFiled(h.sessions, m);
    AddKeepsKnown(h.messages, h.sessions, m);
    AddKeepsCounts(h.messages, h.sessions, m);
  }

  /** Adds the messages one after another. */
  function AddAll(h: History, ms: seq<ChatRecord>): History
    decreases |ms|
  {
    if ms == [] then h else AddAll(AddMessage(h, ms[0]), ms[1..])
  }

  function CountIn(ms: seq<ChatRecord>, sid: string): nat
  {
    if ms == [] then 0 else (if ms[0].sessionId == Some(sid) then 1 else 0) + CountIn(ms[1..], sid)
  }

  function CountOf(h: History, sid: string): nat
  {
    if sid in h.sessions then h.sessions[sid].messageCount else 0
  }

  /**
   * A session's `messageCount` counts every message ever added to it, including
   * those the 500-message limit has since dropped.
   */
  lemma {:induction false} MessageCountCountsAdds(h: History, ms: seq<ChatRecord>, sid: string)
    ensures CountOf(AddAll(h, ms), sid) == CountOf(h, sid) + CountIn(ms, sid)
    decreases |ms|
  {
    if ms != [] {
      var h' := AddMessage(h, ms[0]);
      assert AddAll(h, ms) == AddAll(h', ms[1..]);
      assert CountIn(ms, sid) == (if ms[0].sessionId == Some(sid) then 1 else 0) + CountIn(ms[1..], sid);
      MessageCountCountsAdds(h', ms[1..], sid);
      CountStep(h, ms[0], sid);
    }
  }

  lemma CountStep(h: History, m: ChatRecord, sid: string)
    ensures CountOf(AddMessage(h, m), sid) == CountOf(h, sid) + (if m.sessionId == Some(sid) then 1 else 0)
  {
    var r := AddMessage(h, m).sessions;
    assert r == Record(h.sessions, m);
    if m.sessionId == Some(sid) {
      assert r[sid] == Touched(h.sessions, m, sid);
    } else if sid in h.sessions {
      assert r[sid] == h.sessions[sid];
    }
  }

  function TitleOfFirstUserMessage(ms: seq<ChatRecord>, sid: string): Option<string>
  {
    if ms == [] then None
    else if ms[0].sessionId == Some(sid) && IsFromUser(ms[0]) then Some(TitleOf(ms[0].text))
    else TitleOfFirstUserMessage(ms[1..], sid)
  }

  function TitleIn(h: History, sid: string): Option<string>
  {
    if sid in h.sessions then h.sessions[sid].title else None
  }

  /** A title, once set, never changes; until then it comes from the first user message. */
  lemma {:induction false} TitleFromFirstUserMessage(h: History, ms: seq<ChatRecord>, sid: string)
    ensures TitleIn(AddAll(h, ms), sid) ==
              if TitleIn(h, sid).Some? then TitleIn(h, sid) else TitleOfFirstUserMessage(ms, sid)
    decreases |ms|
  {
    if ms != [] {
      TitleFromFirstUserMessage(AddMessage(h, ms[0]), ms[1..], sid);
      TitleStep(h, ms[0], sid);
    }
  }

  lemma TitleStep(h: History, m: ChatRecord, sid: string)
    ensures TitleIn(AddMessage(h, m), sid) ==
              if m.sessionId != Some(sid) || TitleIn(h, sid).Some? then TitleIn(h, sid)
              else if IsFromUser(m) then Some(TitleOf(m.text)) else None
  {
    var r := AddMessage(h, m).sessions;
    if m.sessionId == Some(sid) {
      assert r[sid] == Touched(h.sessions, m, sid);
    } else if m.sessionId.Some? {
      assert sid in r <==> sid in h.sessions;
      assert sid in r ==> r[sid] == h.sessions[sid];
    }
  }

  /** The position of the first message with this id, if any. */
  function FirstWithId(ms: seq<ChatRecord>, id: string): (r: Option<nat>)
    ensures r.Some? ==> r.value < |ms| && ms[r.value].id == id && forall j | 0 <= j < r.value :: ms[j].id != id
    ensures r.None? ==> forall j | 0 <= j < |ms| :: ms[j].id != id
  {
    if ms == [] then None
    else if ms[0].id == id then Some(0)
    else match FirstWithId(ms[1..], id)
      case None => None
      case Some(i) => Some(i + 1)
  }

  function SetStatusOfFirst(ms: seq<ChatRecord>, id: string, status: MessageStatus): (r: seq<ChatRecord>)
    ensures |r| == |ms|
    ensures FirstWithId(ms, id).None? ==> r == ms
    ensures FirstWithId(ms, id).Some? ==>
              var i := FirstWithId(ms, id).value;
              r[i] == ms[i].(status := status) && forall j | 0 <= j < |ms| && j != i :: r[j] == ms[j]
  {
    if ms == [] then []
    else if ms[0].id == id then [ms[0].(status := status)] + ms[1..]
    else [ms[0]] + SetStatusOfFirst(ms[1..], id, status)
  }

  /** `updateMessageStatus`: only the first message with the id changes, and only its status. */
  function UpdateMessageStatus(h: History, id: string, status: MessageStatus): (r: History)
    ensures r.sessions == h.sessions && |r.messages| == |h.messages|
    ensures FirstWithId(h.messages, id).None? ==> r == h
    ensures FirstWithId(h.messages, id).Some? ==>
              var i := FirstWithId(h.messages, id).value;
              && r.messages[i] == h.messages[i].(status := status)
              && forall j | 0 <= j < |h.messages| && j != i :: r.messages[j] == h.messages[j]
  {
    h.(messages := SetStatusOfFirst(h.messages, id, status))
  }

  /** Changing a status leaves every session's message list the same length and ids. */
  lemma UpdateMessageStatusValid(h: History, id: string, status: MessageStatus)
    requires Valid(h)
    ensures Valid(UpdateMessageStatus(h, id, status))
  {
    var r := UpdateMessageStatus(h, id, status);
    forall k | k in r.sessions
      ensures |InSession(r.messages, k)| == |InSession(h.messages, k)|
    {
      SameSessionsSameCount(h.messages, r.messages, k);
    }
  }

  lemma {:induction false} SameSessionsSameCount(a: seq<ChatRecord>, b: seq<ChatRecord>, sid: string)
    requires |a| == |b|
    requires forall i | 0 <= i < |a| :: a[i].sessionId == b[i].sessionId
    ensures |InSession(a, sid)| == |InSession(b, sid)|
  {
    if a != [] {
      SameSessionsSameCount(a[1..], b[1..], sid);
    }
  }

  /** `getMessagesForSession`. */
  function MessagesForSession(h: History, sid: string): (r: seq<ChatRecord>)
    ensures forall m :: m in r <==> m in h.messages && m.sessionId == Some(sid)
  {
    InSession(h.messages, sid)
  }

  /** Java's `int` subtraction, which wraps modulo 2^32. */
  function Sub32(a: int, b: int): (r: int)
    requires -0x8000_0000 <= a < 0x8000_0000 && -0x8000_0000 <= b < 0x8000_0000
    ensures -0x8000_0000 <= r < 0x8000_0000
    ensures (r - (a - b)) % 0x1_0000_0000 == 0
  {
    var d := a - b;
    if d >= 0x8000_0000 then d - 0x1_0000_0000
    else if d < -0x8000_0000 then d + 0x1_0000_0000
    else d
  }

  const SubListError: string := "fromIndex > toIndex"

  /**
   * `getRecentMessages(count)`: `subList(max(0, size - count), size)` with the
   * subtraction in 32-bit arithmetic. A negative count asks for a start past
   * the end, which `subList` rejects, unless the subtraction wraps.
   */
  function RecentMessages(h: History, count: int): (r: Result<seq<ChatRecord>>)
    requires |h.messages| < 0x8000_0000
    requires -0x8000_0000 <= count < 0x8000_0000
    ensures count >= 0 ==> && r.Ok?
                           && |r.value| == (if count < |h.messages| then count else |h.messages|)
                           && r.value == h.messages[|h.messages| - |r.value|..]
    ensures count < 0 ==> (r.Ok? <==> |h.messages| - count >= 0x8000_0000)
    ensures count < 0 && r.Ok? ==> r.value == h.messages
  {
    var diff := Sub32(|h.messages|, count);
    var start := if diff > 0 then diff else 0;
    if start > |h.messages| then Err(SubListError) else Ok(h.messages[start..])
  }

  /** Sorted newest activity first. */
  predicate NewestFirst(s: seq<SessionInfo>)
  {
    forall i, j | 0 <= i < j < |s| :: s[i].lastActivityAt >= s[j].lastActivityAt
  }

  /** Puts `x` after every entry at least as recent, so equal entries keep their order. */
  function InsertByActivity(x: SessionInfo, s: seq<SessionInfo>): (r: seq<SessionInfo>)
    requires NewestFirst(s)
    ensures NewestFirst(r)
    ensures forall y | y in r :: y == x || y in s
    ensures multiset(r) == multiset(s) + multiset{x}
  {
    if s == [] then [x]
    else if s[0].lastActivityAt >= x.lastActivityAt then
      var rest := InsertByActivity(x, s[1..]);
      assert s == [s[0]] + s[1..];
      assert forall y | y in rest :: s[0].lastActivityAt >= y.lastActivityAt;
      ConsNewestFirst(s[0], rest);
      [s[0]] + rest
    else
      ConsNewestFirst(x, s);
      [x] + s
  }

  /** A head at least as recent as every later entry keeps the order. */
  lemma ConsNewestFirst(head: SessionInfo, rest: seq<SessionInfo>)
    requires NewestFirst(rest)
    requires forall y | y in rest :: head.lastActivityAt >= y.lastActivityAt
    ensures NewestFirst([head] + rest)
  {
    var c := [head] + rest;
    forall i, j | 0 <= i < j < |c| ensures c[i].lastActivityAt >= c[j].lastActivityAt {
      assert c[j] == rest[j - 1];
      if i > 0 {
        assert c[i] == rest[i - 1];
      }
    }
  }

  /** A stable sort, newest activity first, as `Collections.sort` with the reversed comparison. */
  function SortByActivity(s: seq<SessionInfo>): (r: seq<SessionInfo>)
    ensures NewestFirst(r)
    ensures multiset(r) == multiset(s)
  {
    if s == [] then []
    else
      assert s == s[..|s| - 1] + [s[|s| - 1]];
      InsertByActivity(s[|s| - 1], SortByActivity(s[..|s| - 1]))
  }

  predicate NoDuplicates(keys: seq<string>)
  {
    forall i, j | 0 <= i < j < |keys| :: keys[i] != keys[j]
  }

  /**
   * `getAllSessions`: the sessions, newest activity first. `order` is the
   * order in which the `HashMap` happens to list its keys.
   */
  function AllSessions(h: History, order: seq<string>): (r: seq<SessionInfo>)
    requires NoDuplicates(order) && (set k | k in order) == h.sessions.Keys
    ensures NewestFirst(r)
    ensures multiset(r) == multiset(seq(|order|, i requires 0 <= i < |order| => h.sessions[order[i]]))
    ensures forall k | k in h.sessions :: h.sessions[k] in r
    ensures forall s | s in r :: s in h.sessions.Values
  {
    var listed := seq(|order|, i requires 0 <= i < |order| => h.sessions[order[i]]);
    var r := SortByActivity(listed);
    ListedCovers(h, order, listed);
    SameMembers(r, listed);
    SameMembers(listed, r);
    r
  }

  /** Every session is listed under its id, and only sessions are listed. */
  lemma ListedCovers(h: History, order: seq<string>, listed: seq<SessionInfo>)
    requires (set k | k in order) == h.sessions.Keys
    requires |listed| == |order| && forall i | 0 <= i < |order| :: listed[i] == h.sessions[order[i]]
    ensures forall k | k in h.sessions :: h.sessions[k] in listed
    ensures forall s | s in listed :: s in h.sessions.Values
  {
    forall k | k in h.sessions ensures h.sessions[k] in listed {
      var i :| 0 <= i < |order| && order[i] == k;
      assert listed[i] == h.sessions[k];
    }
  }

  /** Sequences holding the same multiset hold the same elements. */
  lemma SameMembers<T>(a: seq<T>, b: seq<T>)
    requires multiset(a) == multiset(b)
    ensures forall x | x in a :: x in b
  {
    forall x | x in a ensures x in b {
      assert x in multiset(a);
    }
  }

  /** `getSession`. */
  function GetSession(h: History, sid: string): (r: Option<SessionInfo>)
    ensures r.Some? <==> sid in h.sessions
    ensures r.Some? ==> r.value == h.sessions[sid]
  {
    if sid in h.sessions then Some(h.sessions[sid]) else None
  }

  /** `clearHistory`. */
  function ClearHistory(h: History): (r: History)
    ensures r.messages == [] && r.sessions == map[]
    ensures Valid(r)
  {
    Empty
  }

  function WithoutSession(ms: seq<ChatRecord>, sid: string): (r: seq<ChatRecord>)
    ensures forall m :: m in r <==> m in ms && m.sessionId != Some(sid)
    ensures |r| <= |ms|
  {
    if ms == [] then []
    else (if ms[0].sessionId == Some(sid) then [] else [ms[0]]) + WithoutSession(ms[1..], sid)
  }

  /** `clearSession`: removes that session's messages and its entry, nothing else. */
  function ClearSession(h: History, sid: string): (r: History)
    ensures forall m :: m in r.messages <==> m in h.messages && m.sessionId != Some(sid)
    ensures r.sessions == h.sessions - {sid}
    ensures MessagesForSession(r, sid) == []
  {
    var r := History(WithoutSession(h.messages, sid), h.sessions - {sid});
    var q := MessagesForSession(r, sid);
    assert q != [] ==> q[0] in q;
    r
  }

  /** Clearing one session leaves every other session's messages, in order, as they were. */
  lemma {:induction false} ClearSessionKeepsOthers(ms: seq<ChatRecord>, sid: string, other: string)
    requires other != sid
    ensures InSession(WithoutSession(ms, sid), other) == InSession(ms, other)
  {
    if ms != [] {
      ClearSessionKeepsOthers(ms[1..], sid, other);
      var head := if ms[0].sessionId == Some(sid) then [] else [ms[0]];
      InSessionAppend(head, WithoutSession(ms[1..], sid), other);
    }
  }

  lemma ClearSessionValid(h: History, sid: string)
    requires Valid(h)
    ensures Valid(ClearSession(h, sid))
  {
    var r := ClearSession(h, sid);
    forall i | 0 <= i < |r.messages| && r.messages[i].sessionId.Some?
      ensures r.messages[i].sessionId.value in r.sessions
    {
      assert r.messages[i] in h.messages;
    }
    forall k | k in r.sessions
      ensures |InSession(r.messages, k)| <= r.sessions[k].messageCount
    {
      ClearSessionKeepsOthers(h.messages, sid, k);
    }
  }
}
