/**
 * The connection life cycle of `WebSocketConnection`: the read loop that
 * turns inbound frames into callbacks, the gating of `send` and `close` on
 * the connection flags, and one whole connection attempt from handshake to
 * the loop's end. Threads are not modelled: each function describes what one
 * sequence of calls does.
 */
module Transport {
  import opened Wrappers
  import opened FrameCodec
  import Handshake

  /** What one step of the read loop reports to its callback or writes back. */
  datatype LoopEvent =
    | Message(payload: seq<bv8>)               // `onMessage` with a text frame's payload
    | Closed(code: int, reason: seq<bv8>)      // `onClose` after a close frame
    | Failed                                   // `onError` after a read failure
    | Pong(payload: seq<bv8>)                  // a pong frame written back

  predicate IsTerminal(e: LoopEvent)
  {
    e.Closed? || e.Failed?
  }

  /** The close status: the first two payload bytes big-endian, or 1000 when fewer arrive. */
  function CloseCode(payload: seq<bv8>): (code: int)
    ensures |payload| < 2 ==> code == 1000
    ensures |payload| >= 2 ==> code == Be16(payload[0], payload[1]) && 0 <= code < 65536
  {
    if |payload| >= 2 then payload[0] as int * 256 + payload[1] as int else 1000
  }

  /** The close reason: the bytes after the status code, or nothing. */
  function CloseReason(payload: seq<bv8>): (reason: seq<bv8>)
    ensures |payload| > 2 ==> payload == payload[..2] + reason
    ensures |payload| <= 2 ==> reason == []
  {
    if |payload| > 2 then payload[2..] else []
  }

  /** What one decoded frame causes: text, close and ping act; pong and every other opcode are ignored. */
  function Dispatch(f: Frame): (r: seq<LoopEvent>)
    ensures |r| <= 1
    ensures f.opcode == OpText ==> r == [Message(f.payload)]
    ensures f.opcode == OpPing ==> r == [Pong(f.payload)]
    ensures f.opcode == OpClose ==> r == [Closed(CloseCode(f.payload), CloseReason(f.payload))]
    ensures r == [] <==> f.opcode != OpText && f.opcode != OpClose && f.opcode != OpPing
    ensures (|r| == 1 && IsTerminal(r[0])) <==> f.opcode == OpClose
  {
    if f.opcode == OpText then [Message(f.payload)]
    else if f.opcode == OpClose then [Closed(CloseCode(f.payload), CloseReason(f.payload))]
    else if f.opcode == OpPing then [Pong(f.payload)]
    else []
  }

  /**
   * The read loop from stream position `pos`: decode a frame, act on it, and
   * go on until end of stream (silently), a malformed length (an error) or a
   * close frame.
   */
  function ReadLoop(s: seq<bv8>, pos: nat): (r: seq<LoopEvent>)
    requires pos <= |s|
    ensures |s| - pos < 2 ==> r == []
    ensures |r| <= (|s| - pos) / 2
    decreases |s| - pos
  {
    match DecodeFrame(s, pos)
    case EndOfStream => []
    case Malformed => [Failed]
    case Decoded(f, next) =>
      if f.opcode == OpClose then Dispatch(f) else Dispatch(f) + ReadLoop(s, next)
  }

  /** At most one close or error, and nothing after it. */
  predicate TerminalOnlyLast(r: seq<LoopEvent>)
  {
    forall i :: 0 <= i < |r| && IsTerminal(r[i]) ==> i == |r| - 1
  }

  /** The loop reports at most one close or error, and nothing after it. */
  lemma {:induction false} TerminalIsLast(s: seq<bv8>, pos: nat)
    requires pos <= |s|
    ensures TerminalOnlyLast(ReadLoop(s, pos))
    decreases |s| - pos
  {
    match DecodeFrame(s, pos)
    case EndOfStream =>
    case Malformed =>
    case Decoded(f, next) =>
      if f.opcode != OpClose {
        TerminalIsLast(s, next);
        TerminalAfterDispatch(f, ReadLoop(s, next));
      }
  }

  /** The callbacks of a frame other than a close, then a tail whose only terminal event is last. */
  lemma TerminalAfterDispatch(f: Frame, rest: seq<LoopEvent>)
    requires f.opcode != OpClose && TerminalOnlyLast(rest)
    ensures TerminalOnlyLast(Dispatch(f) + rest)
  {
    var d := Dispatch(f);
    var r := d + rest;
    forall i | 0 <= i < |r| && IsTerminal(r[i])
      ensures i == |r| - 1
    {
      if i >= |d| {
        assert r[i] == rest[i - |d|];
      }
    }
  }

  /**
   * A stream that simply ends produces no close and no error callback: the
   * loop stops silently and nothing tells the owner the link is gone.
   */
  lemma EndOfStreamIsSilent(s: seq<bv8>)
    requires |s| <= 1
    ensures ReadLoop(s, 0) == []
  {
    HeaderEof(s, 0);
  }

  // ---------------------------------------------------------------------------
  // Position shifting: decoding does not depend on what came before
  // ---------------------------------------------------------------------------

  /** `t` holds `s` from position `k` on: some `k` bytes, then exactly `s`. */
  predicate Shifted(t: seq<bv8>, k: nat, s: seq<bv8>)
  {
    |t| == k + |s| && forall i | 0 <= i < |s| :: t[k + i] == s[i]
  }

  lemma AppendShifted(pre: seq<bv8>, s: seq<bv8>)
    ensures Shifted(pre + s, |pre|, s)
  {
  }

  function ShiftResult(d: DecodeResult, k: nat): DecodeResult
  {
    match d
    case Decoded(f, next) => Decoded(f, k + next)
    case _ => d
  }

  lemma ShiftLength(t: seq<bv8>, k: nat, s: seq<bv8>, pos: nat, q: nat, len7: nat)
    requires Shifted(t, k, s) && pos <= |s| && q == k + pos
    ensures ReadLength(t, q, len7).len == ReadLength(s, pos, len7).len
    ensures ReadLength(t, q, len7).next == k + ReadLength(s, pos, len7).next
  {
    forall i: nat
      ensures ReadAt(t, k + i) == ReadAt(s, i)
    {
      if i < |s| {
        assert t[k + i] == s[i];
      }
    }
    assert ReadAt(t, q) == ReadAt(s, pos);
    assert ReadAt(t, q + 1) == ReadAt(s, pos + 1);
  }

  /** The decoding after a length field read at an offset is the decoding after the length read on the tail. */
  lemma ShiftLengthRead(t: seq<bv8>, k: nat, s: seq<bv8>, pos: nat, q: nat, b0: bv8, b1: bv8, len7: nat)
    requires Shifted(t, k, s) && pos <= |s| && q == k + pos
    ensures DecodeAfterLength(t, b0, b1, ReadLength(t, q, len7).len, ReadLength(t, q, len7).next)
            == DecodeAfterLength(t, b0, b1, ReadLength(s, pos, len7).len, k + ReadLength(s, pos, len7).next)
  {
    ShiftLength(t, k, s, pos, q, len7);
  }

  lemma ShiftBlock(t: seq<bv8>, k: nat, s: seq<bv8>, pos: nat, n: nat)
    requires Shifted(t, k, s) && pos <= |s|
    ensures ReadBlock(t, k + pos, n) == ReadBlock(s, pos, n)
    ensures Advance(t, k + pos, n) == k + Advance(s, pos, n)
    ensures Advance(s, pos, n) <= |s|
  {
    forall i | 0 <= i < n
      ensures ReadBlock(t, k + pos, n)[i] == ReadBlock(s, pos, n)[i]
    {
      if pos + i < |s| {
        assert t[k + (pos + i)] == s[pos + i];
      }
    }
  }

  lemma ShiftPayload(t: seq<bv8>, k: nat, s: seq<bv8>, b0: bv8, b1: bv8, len: nat, afterLength: nat)
    requires Shifted(t, k, s) && afterLength <= |s|
    ensures ReadPayload(t, b0, b1, len, k + afterLength) == ShiftResult(ReadPayload(s, b0, b1, len, afterLength), k)
  {
    ShiftBlock(t, k, s, afterLength, 4);
    var key := ReadBlock(s, afterLength, 4);
    assert ReadBlock(t, k + afterLength, 4) == key;
    var afterKey := if b1 & 0x80 != 0 then Advance(s, afterLength, 4) else afterLength;
    var afterKeyT := if b1 & 0x80 != 0 then Advance(t, k + afterLength, 4) else k + afterLength;
    assert afterKeyT == k + afterKey;
    ShiftBlock(t, k, s, afterKey, len);
    var raw := ReadBlock(s, afterKey, len);
    assert ReadBlock(t, afterKeyT, len) == raw;
    assert Advance(t, afterKeyT, len) == k + Advance(s, afterKey, len);
  }

  lemma ShiftAfterLength(t: seq<bv8>, k: nat, s: seq<bv8>, b0: bv8, b1: bv8, len: Option<nat>, afterLength: nat)
    requires Shifted(t, k, s) && afterLength <= |s|
    ensures DecodeAfterLength(t, b0, b1, len, k + afterLength) == ShiftResult(DecodeAfterLength(s, b0, b1, len, afterLength), k)
  {
    if len.Some? {
      ShiftPayload(t, k, s, b0, b1, len.value, afterLength);
    }
  }

  /**
   * Decoding a frame whose two header bytes are present: read the length,
   * then the rest. The positions after the first and second byte are
   * parameters so that callers can name them.
   */
  lemma UnfoldDecode(s: seq<bv8>, pos: nat, p1: nat, p2: nat)
    requires pos + 2 <= |s| && p1 == pos + 1 && p2 == pos + 2
    ensures DecodeFrame(s, pos)
            == DecodeAfterLength(s, s[pos], s[p1], ReadLength(s, p2, (s[p1] & 0x7F) as nat).len,
                                 ReadLength(s, p2, (s[p1] & 0x7F) as nat).next)
  {
  }

  lemma ShiftHeader(t: seq<bv8>, k: nat, s: seq<bv8>, pos: nat)
    requires Shifted(t, k, s) && pos + 2 <= |s|
    ensures DecodeFrame(t, k + pos) == ShiftResult(DecodeFrame(s, pos), k)
  {
    var q, q1, q2 := k + pos, k + pos + 1, k + pos + 2;
    var p1, p2 := pos + 1, pos + 2;
    assert t[q] == s[pos];
    assert t[q1] == s[p1];
    UnfoldDecode(t, q, q1, q2);
    UnfoldDecode(s, pos, p1, p2);
    var len7 := (s[p1] & 0x7F) as nat;
    var lengthRead := ReadLength(s, p2, len7);
    ShiftLengthRead(t, k, s, p2, q2, s[pos], s[p1], len7);
    ShiftAfterLength(t, k, s, s[pos], s[p1], lengthRead.len, lengthRead.next);
  }

  /** Decoding at an offset into a longer stream is decoding the tail. */
  lemma ShiftDecode(t: seq<bv8>, k: nat, s: seq<bv8>, pos: nat, q: nat)
    requires Shifted(t, k, s) && pos <= |s| && q == k + pos
    ensures DecodeFrame(t, q) == ShiftResult(DecodeFrame(s, pos), k)
  {
    if pos + 2 <= |s| {
      ShiftHeader(t, k, s, pos);
    }
  }

  /** The read loop at an offset into a longer stream behaves as on the tail. */
  lemma {:induction false} ShiftLoop(t: seq<bv8>, k: nat, s: seq<bv8>, pos: nat, q: nat)
    requires Shifted(t, k, s) && pos <= |s| && q == k + pos
    ensures ReadLoop(t, q) == ReadLoop(s, pos)
    decreases |s| - pos
  {
    ShiftDecode(t, k, s, pos, q);
    match DecodeFrame(s, pos)
    case EndOfStream =>
      assert DecodeFrame(t, q) == EndOfStream;
    case Malformed =>
      assert DecodeFrame(t, q) == Malformed;
    case Decoded(f, next) =>
      var q' := k + next;
      assert DecodeFrame(t, q) == Decoded(f, q');
      if f.opcode != OpClose {
        ShiftLoop(t, k, s, next, q');
      }
  }

  /**
   * A frame written with the RFC 6455 length field, followed by more bytes:
   * the loop acts on the frame and then reads the rest as if from scratch,
   * unless the frame was a close.
   */
  lemma LoopOverFrame(opcode: bv8, payload: seq<bv8>, key: seq<bv8>, rest: seq<bv8>)
    requires opcode < 16 && ValidPayload(payload) && |key| == 4
    ensures var f := RfcEncodeFrame(opcode, payload, key);
            var d := Dispatch(Frame(true, opcode, true, payload));
            ReadLoop(f + rest, 0) == if opcode == OpClose then d else d + ReadLoop(rest, 0)
  {
    var f := RfcEncodeFrame(opcode, payload, key);
    RfcRoundTrip(opcode, payload, key, rest);
    if opcode != OpClose {
      AppendShifted(f, rest);
      ShiftLoop(f + rest, |f|, rest, 0, |f|);
    }
  }

  /** The frames a peer sends: an opcode and a payload each. */
  datatype Outgoing = Outgoing(opcode: bv8, payload: seq<bv8>)

  predicate WellFormed(frames: seq<Outgoing>, keys: seq<seq<bv8>>)
  {
    && |keys| == |frames|
    && forall i :: 0 <= i < |frames| ==>
         frames[i].opcode < 16 && ValidPayload(frames[i].payload) && |keys[i]| == 4
  }

  /** The frames written back to back, each with its own mask key and the RFC 6455 length field. */
  function EncodeAll(frames: seq<Outgoing>, keys: seq<seq<bv8>>): seq<bv8>
    requires WellFormed(frames, keys)
  {
    if |frames| == 0 then []
    else RfcEncodeFrame(frames[0].opcode, frames[0].payload, keys[0]) + EncodeAll(frames[1..], keys[1..])
  }

  /**
   * The reference behaviour for a sequence of frames: each frame's callbacks
   * in order, stopping after the first close frame.
   */
  function Expected(frames: seq<Outgoing>): seq<LoopEvent>
  {
    if |frames| == 0 then []
    else
      var d := Dispatch(Frame(true, frames[0].opcode, true, frames[0].payload));
      if frames[0].opcode == OpClose then d else d + Expected(frames[1..])
  }

  /** Reading back any sequence of written frames yields exactly the reference callbacks. */
  lemma {:induction false} LoopOverFrames(frames: seq<Outgoing>, keys: seq<seq<bv8>>)
    requires WellFormed(frames, keys)
    ensures ReadLoop(EncodeAll(frames, keys), 0) == Expected(frames)
    decreases |frames|
  {
    if |frames| == 0 {
      HeaderEof([], 0);
    } else {
      assert WellFormed(frames[1..], keys[1..]) by {
        forall i | 0 <= i < |frames| - 1
          ensures frames[1..][i] == frames[i + 1] && keys[1..][i] == keys[i + 1]
        {
        }
      }
      LoopOverFrame(frames[0].opcode, frames[0].payload, keys[0], EncodeAll(frames[1..], keys[1..]));
      LoopOverFrames(frames[1..], keys[1..]);
    }
  }

  /** A frame the server wrote, followed by more bytes: as `LoopOverFrame`, for an unmasked frame. */
  lemma LoopOverServerFrame(opcode: bv8, payload: seq<bv8>, rest: seq<bv8>)
    requires opcode < 16 && ValidPayload(payload)
    ensures var f := ServerEncodeFrame(opcode, payload);
            var d := Dispatch(Frame(true, opcode, false, payload));
            ReadLoop(f + rest, 0) == if opcode == OpClose then d else d + ReadLoop(rest, 0)
  {
    var f := ServerEncodeFrame(opcode, payload);
    ServerRoundTrip(opcode, payload, rest);
    if opcode != OpClose {
      AppendShifted(f, rest);
      ShiftLoop(f + rest, |f|, rest, 0, |f|);
    }
  }

  /** The frames a server writes: unmasked, back to back, each with the RFC 6455 length field. */
  function ServerEncodeAll(frames: seq<Outgoing>): seq<bv8>
    requires forall i :: 0 <= i < |frames| ==> frames[i].opcode < 16 && ValidPayload(frames[i].payload)
  {
    if |frames| == 0 then []
    else ServerEncodeFrame(frames[0].opcode, frames[0].payload) + ServerEncodeAll(frames[1..])
  }

  /**
   * Reading back any sequence of frames as the server sends them, in every
   * length form, yields exactly the reference callbacks.
   */
  lemma {:induction false} LoopOverServerFrames(frames: seq<Outgoing>)
    requires forall i :: 0 <= i < |frames| ==> frames[i].opcode < 16 && ValidPayload(frames[i].payload)
    ensures ReadLoop(ServerEncodeAll(frames), 0) == Expected(frames)
    decreases |frames|
  {
    if |frames| == 0 {
      HeaderEof([], 0);
    } else {
      var g := frames[0];
      assert forall i :: 0 <= i < |frames[1..]| ==> frames[1..][i] == frames[i + 1];
      LoopOverServerFrame(g.opcode, g.payload, ServerEncodeAll(frames[1..]));
      assert Dispatch(Frame(true, g.opcode, false, g.payload)) == Dispatch(Frame(true, g.opcode, true, g.payload));
      LoopOverServerFrames(frames[1..]);
    }
  }

  // ---------------------------------------------------------------------------
  // Connection flags: send and close
  // ---------------------------------------------------------------------------

  /** The two atomic flags of a connection. */
  datatype Link = Link(connected: bool, closing: bool)

  const Fresh := Link(false, false)

  /** `send`: a text frame is written only while connected; otherwise nothing happens. */
  function Send(link: Link, payload: seq<bv8>): (written: seq<Outgoing>)
    ensures link.connected ==> written == [Outgoing(OpText, payload)]
    ensures !link.connected ==> written == []
  {
    if link.connected then [Outgoing(OpText, payload)] else []
  }

  /**
   * `close`: the first call marks the link as closing, writes an empty close
   * frame if it was connected, and cleans up (the link is no longer
   * connected); later calls do nothing.
   */
  function Close(link: Link): (Link, seq<Outgoing>)
  {
    if link.closing then (link, [])
    else (Link(false, true), if link.connected then [Outgoing(OpClose, [])] else [])
  }

  /** Closing twice writes at most one close frame, and only if the link was up. */
  lemma CloseIdempotent(link: Link)
    ensures var (l1, w1) := Close(link);
            var (l2, w2) := Close(l1);
            && l2 == l1 && w2 == []
            && (!link.closing ==> l1.closing && !l1.connected)
            && |w1| <= 1
            && (w1 != [] <==> link.connected && !link.closing)
  {
  }

  /** Nothing can be sent once the link was closed. */
  lemma NoSendAfterClose(link: Link, payload: seq<bv8>)
    requires !link.closing
    ensures Send(Close(link).0, payload) == []
  {
  }

  // ---------------------------------------------------------------------------
  // One connection attempt
  // ---------------------------------------------------------------------------

  /** The callbacks one connection attempt makes, in order. */
  datatype Callback = OnOpen | OnMessage(payload: seq<bv8>) | OnClose(code: int, reason: seq<bv8>) | OnError

  /** The callback one loop event makes, if any. */
  function CallbackOf(e: LoopEvent): (r: seq<Callback>)
    ensures |r| <= 1
  {
    match e
    case Message(p) => [OnMessage(p)]
    case Closed(code, reason) => [OnClose(code, reason)]
    case Failed => [OnError]
    case Pong(_) => []
  }

  /** The callbacks of the loop's events, in order; pongs make none. */
  function Callbacks(events: seq<LoopEvent>): (r: seq<Callback>)
    ensures |r| <= |events|
  {
    if |events| == 0 then [] else CallbackOf(events[0]) + Callbacks(events[1..])
  }

  function Pongs(events: seq<LoopEvent>): seq<Outgoing>
  {
    if |events| == 0 then []
    else (if events[0].Pong? then [Outgoing(OpPong, events[0].payload)] else []) + Pongs(events[1..])
  }

  /**
   * `doConnect`: if the socket cannot be opened or the handshake reply is not
   * accepted, `onError` is the only callback; otherwise `onOpen`, then the
   * read loop's callbacks over the inbound stream.
   */
  function Attempt(reachable: bool, reply: seq<string>, key: string, digest: string -> string,
                   inbound: seq<bv8>): (r: (seq<Callback>, seq<Outgoing>))
    ensures |r.0| >= 1
    ensures r.0[0] == OnOpen <==> reachable && Handshake.AcceptsReply(reply, key, digest)
    ensures r.0[0] != OnOpen ==> r.0 == [OnError] && r.1 == []
  {
    if !reachable || !Handshake.AcceptsReply(reply, key, digest) then ([OnError], [])
    else
      var events := ReadLoop(inbound, 0);
      ([OnOpen] + Callbacks(events), Pongs(events))
  }

  predicate IsTerminalCallback(c: Callback)
  {
    c.OnClose? || c.OnError?
  }

  lemma {:induction false} CallbacksKeepLast(events: seq<LoopEvent>)
    requires forall i :: 0 <= i < |events| && IsTerminal(events[i]) ==> i == |events| - 1
    ensures forall i :: 0 <= i < |Callbacks(events)| && IsTerminalCallback(Callbacks(events)[i])
                        ==> i == |Callbacks(events)| - 1
    ensures forall i :: 0 <= i < |Callbacks(events)| ==> Callbacks(events)[i] != OnOpen
    decreases |events|
  {
    if |events| > 0 {
      var tail := events[1..];
      forall i | 0 <= i < |tail| && IsTerminal(tail[i])
        ensures i == |tail| - 1
      {
        assert tail[i] == events[i + 1];
      }
      CallbacksKeepLast(tail);
      var c := CallbackOf(events[0]);
      var rest := Callbacks(tail);
      var r := Callbacks(events);
      assert r == c + rest;
      if IsTerminal(events[0]) {
        assert |events| == 1;
        assert rest == [];
      }
      forall i | 0 <= i < |r|
        ensures r[i] != OnOpen
        ensures IsTerminalCallback(r[i]) ==> i == |r| - 1
      {
        if i >= |c| {
          assert r[i] == rest[i - |c|];
        }
      }
    }
  }

  /**
   * Whatever the peer does, one attempt opens at most once and first, and
   * reports at most one close or error, last.
   */
  lemma AttemptShape(reachable: bool, reply: seq<string>, key: string, digest: string -> string,
                     inbound: seq<bv8>)
    ensures var cbs := Attempt(reachable, reply, key, digest, inbound).0;
            && (forall i :: 0 < i < |cbs| ==> cbs[i] != OnOpen)
            && (forall i :: 0 <= i < |cbs| && IsTerminalCallback(cbs[i]) ==> i == |cbs| - 1)
  {
    if reachable && Handshake.AcceptsReply(reply, key, digest) {
      var events := ReadLoop(inbound, 0);
      TerminalIsLast(inbound, 0);
      CallbacksKeepLast(events);
      var cbs := [OnOpen] + Callbacks(events);
      forall i | 0 < i < |cbs|
        ensures cbs[i] == Callbacks(events)[i - 1]
      {
      }
    }
  }
}
