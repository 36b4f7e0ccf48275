/**
 * The opening handshake of `WebSocketConnection` (section 4.1 of RFC 6455,
 * client side): choosing the port, writing the upgrade request, and checking
 * the server's reply. The SHA-1 and Base64 step that derives the expected
 * `Sec-WebSocket-Accept` value is a function parameter, and the random key is
 * an argument.
 */
module Handshake {
  import opened Wrappers
  import opened Text

  const Guid: string := "258EAFA5-E914-47DA-95CA-C5AB0DC85B11"
  const AcceptPrefix: string := "sec-websocket-accept:"

  /** The port to dial: the URI's own, or 443 for `wss` (any case) and 80 otherwise. */
  function EffectivePort(scheme: string, uriPort: int): (p: int)
    ensures uriPort != -1 ==> p == uriPort
    ensures uriPort == -1 && Lower(scheme) == "wss" ==> p == 443
    ensures uriPort == -1 && Lower(scheme) != "wss" ==> p == 80
  {
    if uriPort == -1 then (if Lower(scheme) == "wss" then 443 else 80) else uriPort
  }

  /** The request target: the path ("/" when missing or empty), then `?query` when a query is present. */
  function RequestTarget(path: Option<string>, query: Option<string>): (t: string)
    ensures |t| > 0
    ensures path.Some? && path.value != "" ==> StartsWith(t, path.value)
    ensures (path.None? || path.value == "") ==> t[0] == '/'
    ensures query.None? && (path.None? || path.value == "") ==> t == "/"
    ensures query.None? && path.Some? && path.value != "" ==> t == path.value
    ensures query.Some? ==> |t| > |query.value| && t[|t| - |query.value| - 1..] == "?" + query.value
    ensures query.Some? ==> t == RequestTarget(path, None) + "?" + query.value
    decreases query.Some?
  {
    var p := if path.None? || path.value == "" then "/" else path.value;
    var suffix := if query.Some? then "?" + query.value else "";
    SuffixOfConcat(p, suffix);
    assert (p + suffix)[0] == p[0];
    assert query.None? ==> p + suffix == p;
    p + suffix
  }

  /** The `Host` header value: the port is appended unless it is 80 or 443. */
  function HostValue(host: string, port: int): (r: string)
    ensures StartsWith(r, host)
    ensures r == host <==> port == 80 || port == 443
    ensures r != host ==> r[|host|] == ':' && r[|host| + 1..] == IntToString(port)
  {
    var suffix := if port != 80 && port != 443 then ":" + IntToString(port) else "";
    PrefixOfConcat(host, suffix);
    assert port != 80 && port != 443 ==> (host + suffix)[|host| + 1..] == IntToString(port);
    host + suffix
  }

  const Crlf: string := "\r\n"

  /** Lines, each followed by CRLF. */
  function CrlfLines(lines: seq<string>): (r: string)
    decreases |lines|
  {
    if lines == [] then [] else lines[0] + Crlf + CrlfLines(lines[1..])
  }

  /** The lines before line `k`, line `k` and its CRLF, then the lines after it. */
  lemma {:induction false} CrlfLinesSplit(lines: seq<string>, k: nat)
    requires k < |lines|
    ensures CrlfLines(lines) == CrlfLines(lines[..k]) + lines[k] + Crlf + CrlfLines(lines[k + 1..])
    decreases k
  {
    if k > 0 {
      var tail := lines[1..];
      CrlfLinesSplit(tail, k - 1);
      assert tail[..k - 1] == lines[..k][1..];
      assert tail[k - 1] == lines[k] && tail[k..] == lines[k + 1..];
      assert CrlfLines(lines[..k]) == lines[0] + Crlf + CrlfLines(tail[..k - 1]);
    } else {
      assert lines[1..] == lines[k + 1..];
    }
  }

  /** Every line after the first is framed by CRLFs. */
  lemma LineFramed(lines: seq<string>, k: nat)
    requires 0 < k < |lines|
    ensures Contains(CrlfLines(lines), Crlf + lines[k] + Crlf)
  {
    CrlfLinesSplit(lines, k - 1);
    var a, b, l, t := CrlfLines(lines[..k - 1]), lines[k - 1], lines[k], CrlfLines(lines[k + 1..]);
    assert CrlfLines(lines[k..]) == l + Crlf + t by {
      var rest := lines[k..];
      assert rest[0] == l && rest[1..] == lines[k + 1..];
    }
    assert CrlfLines(lines) == a + b + Crlf + (l + Crlf + t);
    Regroup(a, b, Crlf, l, t);
    InfixOfConcat(a + b, Crlf + l + Crlf, t);
  }

  lemma Regroup<T>(a: seq<T>, b: seq<T>, c: seq<T>, d: seq<T>, e: seq<T>)
    ensures a + b + c + (d + c + e) == (a + b) + (c + d + c) + e
  {
  }

  /** The lines of the upgrade request, the last one empty. */
  function RequestLines(target: string, host: string, port: int, key: string): (ls: seq<string>)
    ensures |ls| == 7
  {
    ["GET " + target + " HTTP/1.1", "Host: " + HostValue(host, port), "Upgrade: websocket", "Connection: Upgrade",
     "Sec-WebSocket-Key: " + key, "Sec-WebSocket-Version: 13", ""]
  }

  /** The upgrade request, CRLF-terminated lines ending in an empty line. */
  function UpgradeRequest(target: string, host: string, port: int, key: string): (r: string)
    ensures StartsWith(r, "GET " + target + " HTTP/1.1" + Crlf)
    ensures |r| >= 4 && r[|r| - 4..] == Crlf + Crlf
    ensures Contains(r, Crlf + ("Host: " + HostValue(host, port)) + Crlf)
    ensures Contains(r, Crlf + "Upgrade: websocket" + Crlf)
    ensures Contains(r, Crlf + "Connection: Upgrade" + Crlf)
    ensures Contains(r, Crlf + ("Sec-WebSocket-Key: " + key) + Crlf)
    ensures Contains(r, Crlf + "Sec-WebSocket-Version: 13" + Crlf)
  {
    var ls := RequestLines(target, host, port, key);
    RequestStart(ls);
    RequestEnd(ls);
    LineFramed(ls, 1);
    LineFramed(ls, 2);
    LineFramed(ls, 3);
    LineFramed(ls, 4);
    LineFramed(ls, 5);
    CrlfLines(ls)
  }

  /** The first line and its CRLF lead. */
  lemma RequestStart(ls: seq<string>)
    requires |ls| > 0
    ensures StartsWith(CrlfLines(ls), ls[0] + Crlf)
  {
    assert CrlfLines(ls) == ls[0] + Crlf + CrlfLines(ls[1..]);
    PrefixOfConcat(ls[0] + Crlf, CrlfLines(ls[1..]));
  }

  /** A last line that is empty makes the text end in two CRLFs. */
  lemma RequestEnd(ls: seq<string>)
    requires |ls| >= 2 && ls[|ls| - 1] == ""
    ensures |CrlfLines(ls)| >= 4 && CrlfLines(ls)[|CrlfLines(ls)| - 4..] == Crlf + Crlf
  {
    var n := |ls|;
    CrlfLinesSplit(ls, n - 2);
    var last := ls[n - 1..];
    assert last == [""] && CrlfLines(last) == Crlf;
    var before := CrlfLines(ls[..n - 2]) + ls[n - 2];
    assert CrlfLines(ls) == before + (Crlf + Crlf);
    SuffixOfConcat(before, Crlf + Crlf);
  }

  /** A header line naming `Sec-WebSocket-Accept`, in any letter case. */
  predicate IsAcceptLine(line: string)
  {
    StartsWith(Lower(line), AcceptPrefix)
  }

  /** The value of an accept line: everything after the colon, trimmed. */
  function AcceptValue(line: string): string
    requires IsAcceptLine(line)
  {
    Trim(line[|AcceptPrefix|..])
  }

  /**
   * The header loop: read lines until end of input or an empty line,
   * remembering the value of the last accept line seen.
   */
  function ScanAccept(lines: seq<string>, found: Option<string>): Option<string>
    decreases |lines|
  {
    if |lines| == 0 || lines[0] == "" then found
    else ScanAccept(lines[1..], if IsAcceptLine(lines[0]) then Some(AcceptValue(lines[0])) else found)
  }

  /** The number of header lines before the first empty line (or all of them). */
  function HeaderCount(lines: seq<string>): (n: nat)
    ensures n <= |lines|
    ensures forall i :: 0 <= i < n ==> lines[i] != ""
    ensures n < |lines| ==> lines[n] == ""
  {
    if |lines| == 0 || lines[0] == "" then 0 else 1 + HeaderCount(lines[1..])
  }

  /** Line `j` of the header block is an accept line and no later one in the block is. */
  predicate LastAcceptAt(lines: seq<string>, j: nat)
  {
    && j < HeaderCount(lines)
    && IsAcceptLine(lines[j])
    && forall k :: j < k < HeaderCount(lines) ==> !IsAcceptLine(lines[k])
  }

  /**
   * The loop finds a value exactly when the header block holds an accept
   * line, and then it is the value of the last one; otherwise it keeps what
   * it started with.
   */
  lemma {:induction false} ScanAcceptFindsLast(lines: seq<string>, found: Option<string>)
    ensures forall j: nat :: LastAcceptAt(lines, j) ==> ScanAccept(lines, found) == Some(AcceptValue(lines[j]))
    ensures (forall k :: 0 <= k < HeaderCount(lines) ==> !IsAcceptLine(lines[k]))
            ==> ScanAccept(lines, found) == found
    decreases |lines|
  {
    if |lines| == 0 || lines[0] == "" {
      assert HeaderCount(lines) == 0;
    } else {
      var next := if IsAcceptLine(lines[0]) then Some(AcceptValue(lines[0])) else found;
      var tail := lines[1..];
      ScanAcceptFindsLast(tail, next);
      assert HeaderCount(lines) == 1 + HeaderCount(tail);
      forall j: nat | LastAcceptAt(lines, j)
        ensures ScanAccept(lines, found) == Some(AcceptValue(lines[j]))
      {
        if j == 0 {
          forall k | 0 <= k < HeaderCount(tail)
            ensures !IsAcceptLine(tail[k])
          {
            assert tail[k] == lines[k + 1];
          }
        } else {
          assert tail[j - 1] == lines[j];
          forall k | j - 1 < k < HeaderCount(tail)
            ensures !IsAcceptLine(tail[k])
          {
            assert tail[k] == lines[k + 1];
          }
          assert LastAcceptAt(tail, j - 1);
        }
      }
      if forall k :: 0 <= k < HeaderCount(lines) ==> !IsAcceptLine(lines[k]) {
        forall k | 0 <= k < HeaderCount(tail)
          ensures !IsAcceptLine(tail[k])
        {
          assert tail[k] == lines[k + 1];
        }
      }
    }
  }

  /** Whatever follows the first empty line is never looked at. */
  lemma {:induction false} ScanAcceptStopsAtBlank(block: seq<string>, after: seq<string>, found: Option<string>)
    requires forall i :: 0 <= i < |block| ==> block[i] != ""
    ensures ScanAccept(block + [""] + after, found) == ScanAccept(block, found)
    decreases |block|
  {
    if |block| > 0 {
      assert (block + [""] + after)[1..] == block[1..] + [""] + after;
      ScanAcceptStopsAtBlank(block[1..], after, if IsAcceptLine(block[0]) then Some(AcceptValue(block[0])) else found);
    } else {
      assert (block + [""] + after)[0] == "";
    }
  }

  /**
   * The reply is accepted when its first line exists and contains "101" and
   * the last accept header equals the digest of the key and the GUID.
   */
  predicate AcceptsReply(reply: seq<string>, key: string, digest: string -> string)
  {
    && |reply| > 0
    && Contains(reply[0], "101")
    && ScanAccept(reply[1..], None) == Some(digest(key + Guid))
  }

  /**
   * Acceptance in terms of the reply alone: a status line with "101" and a
   * last accept header in the header block whose value is the expected one.
   */
  lemma AcceptsReplyCharacterised(reply: seq<string>, key: string, digest: string -> string)
    ensures AcceptsReply(reply, key, digest)
            <==> (&& |reply| > 0 && Contains(reply[0], "101")
                  && exists j: nat :: LastAcceptAt(reply[1..], j) && AcceptValue(reply[1..][j]) == digest(key + Guid))
  {
    if |reply| > 0 {
      var hs := reply[1..];
      ScanAcceptFindsLast(hs, None);
      if ScanAccept(hs, None).Some? {
        var j := LastAcceptIndex(hs, HeaderCount(hs));
        assert LastAcceptAt(hs, j);
      }
    }
  }

  /**
   * The index of the last accept line among the first `n` header lines, when
   * the loop found one.
   */
  function LastAcceptIndex(lines: seq<string>, n: nat): (j: nat)
    requires n <= HeaderCount(lines)
    requires exists k :: 0 <= k < n && IsAcceptLine(lines[k])
    ensures j < n && IsAcceptLine(lines[j])
    ensures forall k :: j < k < n ==> !IsAcceptLine(lines[k])
  {
    if IsAcceptLine(lines[n - 1]) then n - 1 else LastAcceptIndex(lines, n - 1)
  }

  /** A canonical reply is accepted: header names match in any case and the value is trimmed. */
  lemma CanonicalReplyAccepted(key: string, digest: string -> string, others: seq<string>)
    requires var v := digest(key + Guid); v != [] && !IsTrimmable(v[0]) && !IsTrimmable(v[|v| - 1])
    requires forall i :: 0 <= i < |others| ==> others[i] != "" && !IsAcceptLine(others[i])
    ensures AcceptsReply([SwitchingLine] + others
                         + ["Sec-WebSocket-Accept: " + digest(key + Guid), ""], key, digest)
  {
    var v := digest(key + Guid);
    SwitchingProtocols();
    AcceptLineValue(v);
    AcceptsAssembled(SwitchingLine, others, "Sec-WebSocket-Accept: " + v, key, digest);
  }

  /** A status line with "101", non-accept headers, then one accept line with the expected value. */
  lemma AcceptsAssembled(status: string, others: seq<string>, line: string, key: string, digest: string -> string)
    requires Contains(status, "101")
    requires forall i :: 0 <= i < |others| ==> others[i] != "" && !IsAcceptLine(others[i])
    requires IsAcceptLine(line) && AcceptValue(line) == digest(key + Guid)
    ensures AcceptsReply([status] + others + [line, ""], key, digest)
  {
    var reply := [status] + others + [line, ""];
    assert line != "" by {
      assert |Lower(line)| >= |AcceptPrefix|;
    }
    ConsTail(status, others, [line, ""]);
    ScanPlainThenAccept(others, line, None);
    assert reply[0] == status;
  }

  lemma ConsTail<T>(x: T, a: seq<T>, b: seq<T>)
    ensures ([x] + a + b)[1..] == a + b
  {
  }

  /** Header lines that are not accept lines, then an accept line and the blank line: its value is found. */
  lemma {:induction false} ScanPlainThenAccept(others: seq<string>, line: string, found: Option<string>)
    requires forall i :: 0 <= i < |others| ==> others[i] != "" && !IsAcceptLine(others[i])
    requires line != "" && IsAcceptLine(line)
    ensures ScanAccept(others + [line, ""], found) == Some(AcceptValue(line))
    decreases |others|
  {
    var hs := others + [line, ""];
    if others == [] {
      assert hs == [line, ""];
      assert hs[1..] == [""];
    } else {
      assert hs[0] == others[0];
      assert hs[1..] == others[1..] + [line, ""];
      ScanPlainThenAccept(others[1..], line, found);
    }
  }

  /** The status line of a server switching to WebSocket. */
  const SwitchingLine: string := "HTTP/1.1 " + "101" + " Switching Protocols"

  lemma SwitchingProtocols()
    ensures Contains(SwitchingLine, "101")
  {
    InfixOfConcat("HTTP/1.1 ", "101", " Switching Protocols");
  }

  /** A header written with the canonical capitalisation is an accept line carrying its value. */
  lemma AcceptLineValue(v: string)
    requires v != [] && !IsTrimmable(v[0]) && !IsTrimmable(v[|v| - 1])
    ensures IsAcceptLine("Sec-WebSocket-Accept: " + v)
    ensures AcceptValue("Sec-WebSocket-Accept: " + v) == v
  {
    var line := "Sec-WebSocket-Accept: " + v;
    LowerPrefix(line, 21);
    assert line[..21] == "Sec-WebSocket-Accept:";
    assert Lower(line[..21]) == AcceptPrefix;
    assert line[21..] == " " + v;
    assert TrimStart(" " + v) == v by {
      TrimStartOfClean(v);
      assert (" " + v)[1..] == v;
    }
    TrimEndOfClean(v);
  }
}
