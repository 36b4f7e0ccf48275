# Yarvis assistant: a Dafny model of its protocol and session core

Yarvis is a voice assistant. An Android client listens for a wake word and
sends what the user says, typed chat and phone notifications to a backend
over a WebSocket. The backend keeps conversation sessions, asks a workflow
(a real one or a built-in mock) what to answer, and sends back spoken
responses, device actions, rich "show" content, and the start or end of a
conversation. This project models the deterministic logic of both ends and
proves properties about it:

- **The hand-rolled WebSocket layer of the client** (`WebSocketConnection`).
  It covers frame encoding and client masking, the frame reader and the read
  loop that dispatches close, ping and text frames, the opening handshake
  request, the check of the server's reply, and the `send`/`close` gating.
  The model follows the code where it departs from RFC 6455 (see the notes
  below and "## Findings").
- **The client's protocol layer.** This is the message vocabulary
  (`WebSocketMessage`), the connection state machine of
  `YarvisWebSocketClient`, the listener fan-out of `WebSocketService`, and
  the pure routing helpers of `VoiceService` (wake word, local commands,
  notification text, conversation flags).
- **Chat history and the local command model.** This is
  `ChatMessageModel`, `ChatHistoryManager`, `Repository`, the LRU `Cache`
  with expiry, `CommandType`, `CommandResult`, the template-method
  `CommandProcessor`, and the keyword parser and dispatch of
  `CommandProcessorManager`.
- **The backend's session logic (TypeScript).** This is the `SessionManager`
  and its two maps, the message handlers that turn a workflow result into
  server messages, the mock workflow's first-match table and its rule for
  important notifications, and the `ConnectionManager` registry.

Everything that touches a socket, a thread, a clock, randomness or an
Android API is a parameter. Examples: the inbound byte stream, the SHA-1 and
Base64 digest, the `now` of every timed call, fresh session ids and the
locale-formatted time texts. JSON is an abstract value (`Json.Json`), not
text. JavaScript `Map` and `Set` are `OrderedMap.OMap`, which keeps
insertion order, because the backend iterates over them.

Files: `wrappers.dfy` (Option, Result), `text.dfy` (ASCII lowering, Java
`trim`, substring search), `json.dfy`, `frame_codec.dfy`, `handshake.dfy`,
`transport.dfy`, `messages.dfy`, `session_client.dfy`, `socket_service.dfy`,
`voice.dfy`, `chat_model.dfy`, `chat_history.dfy`, `repository.dfy`,
`lru_cache.dfy`, `commands.dfy`, `processor.dfy`, `command_manager.dfy`,
`ordered_map.dfy`, `sessions.dfy`, `workflow.dfy`, `mock_workflow.dfy`,
`handlers.dfy`, `connections.dfy`.

Places where the code, not a description of it, decides the model:

- An inbound stream that simply ends produces no callback at all
  (`Transport.EndOfStreamIsSilent`). The read loop breaks out silently. The
  connection's `connected` flag still drops, so the client stops counting as
  connected without being told why (`SessionClient.LinkLostIsSilentButDisconnects`).
- A close frame without a status code reports 1000, not the 1005 of
  section 7.1.5 of RFC 6455. The FIN bit is read and never used.
- The frame reader ignores the first four bytes of an 8-byte length. The
  writer repeats the low four bytes there (see "## Findings").
- `WebSocketService` calls authentication and password APIs that the client
  and parser shown here do not have. Only what the client and parser
  implement is modelled, so the service's `authenticated` flag is set only
  by an explicit authentication result event.
- The backend's `handleClientMessage` relies on the `type` field alone. The
  model reads a client message as the backend's handler does
  (`Messages.ReadClientMessage`) and proves that it reads back everything
  the client writes.

## Model

| member | source | states |
|---|---|---|
| FrameCodec.LowByteValue | app/src/main/java/com/yarvis/assistant/network/WebSocketConnection.java:270-282 | writing an int keeps its low eight bits: the byte written is the value modulo 256 |
| FrameCodec.BytesOf32 | app/src/main/java/com/yarvis/assistant/network/WebSocketConnection.java:279-281 | the four bytes the shift-and-mask loop writes for a length below 2^32 are its big-endian bytes, and they read back as the length |
| FrameCodec.LengthFieldShape | app/src/main/java/com/yarvis/assistant/network/WebSocketConnection.java:270-282 | the length byte has the mask bit set; below 126 it carries the length itself; below 65536 it is 126 followed by the 16-bit big-endian length; otherwise 127 followed by the four low length bytes twice over |
| FrameCodec.Mask | app/src/main/java/com/yarvis/assistant/network/WebSocketConnection.java:284-290 | masking keeps the payload length (each byte XORed with key byte i mod 4) |
| FrameCodec.MaskInvolution | app/src/main/java/com/yarvis/assistant/network/WebSocketConnection.java:213-217 | unmasking with the same key restores the payload |
| FrameCodec.EncodeFrame | app/src/main/java/com/yarvis/assistant/network/WebSocketConnection.java:265-293 | a written frame is as long as the header, the length field, the 4-byte key and the payload together; its first byte is FIN plus the opcode |
| FrameCodec.EncodedFrameLayout | app/src/main/java/com/yarvis/assistant/network/WebSocketConnection.java:268-290 | a written frame is the first byte, the length field, the key and the masked payload, laid end to end |
| FrameCodec.LongLengthIsNotRfcLength | app/src/main/java/com/yarvis/assistant/network/WebSocketConnection.java:277-281 | for every payload of 65536 bytes or more, the eight length bytes as written denote a 64-bit length different from the payload length |
| FrameCodec.RfcLengthField | app/src/main/java/com/yarvis/assistant/network/WebSocketConnection.java:270-282 | corrected writer: the eight length bytes are the 64-bit big-endian payload length; the short and 16-bit forms are unchanged |
| FrameCodec.RfcEncodeFrame | app/src/main/java/com/yarvis/assistant/network/WebSocketConnection.java:265-293 | the corrected writer writes exactly the same frame for every payload below 65536 bytes |
| FrameCodec.ReadBlock | app/src/main/java/com/yarvis/assistant/network/WebSocketConnection.java:205-211 | reading n bytes into a zeroed array gives n bytes: the bytes still in the stream, then zeros |
| FrameCodec.DecodeFrame | app/src/main/java/com/yarvis/assistant/network/WebSocketConnection.java:179-217 | a decoded frame ends past its two header bytes and within the stream; what it holds is fixed by the round-trip and end-of-stream lemmas below |
| FrameCodec.LengthFieldDenotes | app/src/main/java/com/yarvis/assistant/network/WebSocketConnection.java:190-197 | every length field the writer emits is one the reader resolves to the payload length |
| FrameCodec.ReadLengthOf | app/src/main/java/com/yarvis/assistant/network/WebSocketConnection.java:190-197 | the reader resolves a length field to the length it denotes and stops right after the field |
| FrameCodec.RoundTrip | app/src/main/java/com/yarvis/assistant/network/WebSocketConnection.java:176-293 | decoding any written frame gives back its opcode and payload with FIN and mask set, and consumes exactly the written bytes |
| FrameCodec.RfcRoundTrip | app/src/main/java/com/yarvis/assistant/network/WebSocketConnection.java:176-293 | the corrected writer round-trips through the reader in the same way |
| FrameCodec.ServerRoundTrip | app/src/main/java/com/yarvis/assistant/network/WebSocketConnection.java:185-217 | an unmasked frame with the RFC 6455 length field, in any of its three forms, decodes to FIN, its opcode, no mask and its payload, and consumes exactly its bytes |
| FrameCodec.ServerLengthField | app/src/main/java/com/yarvis/assistant/network/WebSocketConnection.java:188-197 | the length field without the mask bit is read back as the length: the length itself below 126, 126 and a 16-bit big-endian length below 65536, otherwise 127 and eight bytes whose low four carry the length |
| FrameCodec.HeaderEof | app/src/main/java/com/yarvis/assistant/network/WebSocketConnection.java:179-183 | fewer than two bytes left means end of stream |
| FrameCodec.TruncatedPayload | app/src/main/java/com/yarvis/assistant/network/WebSocketConnection.java:205-211 | a stream that ends inside the payload still gives a frame of the declared length: what arrived, then zeros |
| FrameCodec.ZeroFilled | app/src/main/java/com/yarvis/assistant/network/WebSocketConnection.java:205-211 | a block read that runs into end of stream is completed with zeros |
| FrameCodec.ShortUnmasked | app/src/main/java/com/yarvis/assistant/network/WebSocketConnection.java:185-217 | an unmasked frame with a seven-bit length decodes to its header fields and bytes |
| FrameCodec.HugeLengthFails | app/src/main/java/com/yarvis/assistant/network/WebSocketConnection.java:192-196 | an 8-byte length whose low word has its top bit set is a negative int and makes the decoding step fail |
| Handshake.EffectivePort | app/src/main/java/com/yarvis/assistant/network/WebSocketConnection.java:87-92 | the URI's port when given; otherwise 443 for a `wss` scheme in any letter case, and 80 for anything else |
| Handshake.RequestTarget | app/src/main/java/com/yarvis/assistant/network/WebSocketConnection.java:127-129 | without a query the target is the path, or "/" when the path is missing or empty; with a query it is that query-less target followed by "?" and the query; it is never empty |
| Handshake.HostValue | app/src/main/java/com/yarvis/assistant/network/WebSocketConnection.java:132 | the host header value starts with the host; it is the host alone exactly when the port is 80 or 443, and otherwise the host, a colon and the port in decimal |
| Handshake.UpgradeRequest | app/src/main/java/com/yarvis/assistant/network/WebSocketConnection.java:131-137 | the request starts with the GET line for the target and ends with an empty line; the Host, Upgrade, Connection, key and version header lines each occur in it between two CRLFs |
| Handshake.HeaderCount | app/src/main/java/com/yarvis/assistant/network/WebSocketConnection.java:151 | the header block is the lines before the first empty line, none of them empty |
| Handshake.ScanAcceptFindsLast | app/src/main/java/com/yarvis/assistant/network/WebSocketConnection.java:150-155 | the header loop finds a value exactly when the header block holds an accept line, and then it is the trimmed value of the last one |
| Handshake.ScanAcceptStopsAtBlank | app/src/main/java/com/yarvis/assistant/network/WebSocketConnection.java:151 | nothing after the first empty line affects the result |
| Handshake.AcceptsReplyCharacterised | app/src/main/java/com/yarvis/assistant/network/WebSocketConnection.java:143-163 | a reply is accepted exactly when its status line contains "101" and the last accept header of the header block equals the digest of the key and the GUID |
| Handshake.LastAcceptIndex | app/src/main/java/com/yarvis/assistant/network/WebSocketConnection.java:150-155 | the index found is that of the last accept line among the first n lines |
| Handshake.CanonicalReplyAccepted | app/src/main/java/com/yarvis/assistant/network/WebSocketConnection.java:143-163 | a canonical `101` reply carrying the expected accept value is accepted, whatever other headers come before it |
| Handshake.AcceptLineValue | app/src/main/java/com/yarvis/assistant/network/WebSocketConnection.java:152-153 | a header written with the canonical capitalisation is recognised, and its value is read back after trimming |
| Transport.CloseCode | app/src/main/java/com/yarvis/assistant/network/WebSocketConnection.java:226-227 | the status code is the first two payload bytes big-endian (a value in 0..65535), or 1000 when fewer arrive |
| Transport.CloseReason | app/src/main/java/com/yarvis/assistant/network/WebSocketConnection.java:228-229 | the reason is the payload after the two status bytes, or empty |
| Transport.Dispatch | app/src/main/java/com/yarvis/assistant/network/WebSocketConnection.java:219-240 | a text frame gives one message with its payload, a ping one pong with the same payload, a close one close with its code and reason; every other opcode gives nothing; only a close ends the loop |
| Transport.ReadLoop | app/src/main/java/com/yarvis/assistant/network/WebSocketConnection.java:176-250 | a stream with fewer than two bytes left reports nothing, and the loop never reports more events than there are two-byte frame headers in the stream |
| Transport.TerminalIsLast | app/src/main/java/com/yarvis/assistant/network/WebSocketConnection.java:176-250 | the read loop reports at most one close or error, and nothing after it |
| Transport.EndOfStreamIsSilent | app/src/main/java/com/yarvis/assistant/network/WebSocketConnection.java:179-183 | a stream with fewer than two bytes makes the read loop report nothing: no close and no error callback |
| Transport.ShiftLoop | app/src/main/java/com/yarvis/assistant/network/WebSocketConnection.java:176-241 | the read loop at an offset into a longer stream behaves as on the tail |
| Transport.LoopOverFrame | app/src/main/java/com/yarvis/assistant/network/WebSocketConnection.java:176-241 | after a frame written with the RFC 6455 length field the loop acts on that frame, then reads the rest afresh unless the frame was a close |
| Transport.LoopOverFrames | app/src/main/java/com/yarvis/assistant/network/WebSocketConnection.java:176-241 | reading back any sequence of frames written with the RFC 6455 length field yields the reference callbacks: each frame's in order, stopping after the first close |
| Transport.LoopOverServerFrames | app/src/main/java/com/yarvis/assistant/network/WebSocketConnection.java:176-241 | reading back any sequence of frames as the server sends them, unmasked and in every length form, yields the same reference callbacks |
| Transport.Send | app/src/main/java/com/yarvis/assistant/network/WebSocketConnection.java:53-63 | one text frame with the message is written exactly when the link is connected; otherwise nothing |
| Transport.CloseIdempotent | app/src/main/java/com/yarvis/assistant/network/WebSocketConnection.java:65-79 | closing twice writes at most one close frame, only if the link was up, and leaves it not connected |
| Transport.NoSendAfterClose | app/src/main/java/com/yarvis/assistant/network/WebSocketConnection.java:53-79 | once the link is closed a send writes nothing |
| Transport.Attempt | app/src/main/java/com/yarvis/assistant/network/WebSocketConnection.java:85-120 | an unreachable server or a rejected reply gives onError alone; otherwise onOpen first, then the read loop's callbacks |
| Transport.CallbacksKeepLast | app/src/main/java/com/yarvis/assistant/network/WebSocketConnection.java:176-250 | the callbacks keep the loop's shape: at most one close or error, and last |
| Transport.AttemptShape | app/src/main/java/com/yarvis/assistant/network/WebSocketConnection.java:85-120 | whatever the peer sends, one attempt calls onOpen at most once and first, and reports at most one close or error, last |
| Json.OptString | app/src/main/java/com/yarvis/assistant/network/WebSocketMessage.java:47-54 | a missing key gives the fallback, which may be null; any present key gives a string, and a string value gives itself |
| Json.OptStringOr | app/src/main/java/com/yarvis/assistant/network/WebSocketMessage.java:337 | with a non-null fallback: the fallback when the key is missing, the string itself when it holds a string |
| Json.OptBoolean | app/src/main/java/com/yarvis/assistant/network/WebSocketMessage.java:343 | a boolean value gives itself and a missing key gives the fallback |
| Json.OptObject | app/src/main/java/com/yarvis/assistant/network/WebSocketMessage.java:346 | an object exactly when the key holds an object, and then that object |
| Json.OptArray | app/src/main/java/com/yarvis/assistant/network/WebSocketMessage.java:110 | an array exactly when the key holds an array, and then that array |
| Json.ObjectsOf | app/src/main/java/com/yarvis/assistant/network/WebSocketMessage.java:110-119 | the loop that skips non-objects keeps exactly the objects of the array: no more elements than the array has, each an object of it, and every object of it present; a one-element array gives its object, or nothing when that element is not an object |
| Json.ObjectsOfObjects | app/src/main/java/com/yarvis/assistant/network/WebSocketMessage.java:110-119 | an array holding only objects yields all of them, in order |
| Json.ObjectsOfAppend | app/src/main/java/com/yarvis/assistant/network/WebSocketMessage.java:110-119 | the objects of two arrays laid end to end are the objects of the first followed by those of the second |
| Json.PutOpt | app/src/main/java/com/yarvis/assistant/network/WebSocketMessage.java:172-174 | a present value is written under the key; an absent one leaves the object as it was |
| Json.PutNullable | app/src/main/java/com/yarvis/assistant/network/WebSocketMessage.java:257 | putting a null string removes the key and keeps every other field |
| Json.OptStringPutOpt | app/src/main/java/com/yarvis/assistant/network/WebSocketMessage.java:172-174 | a field written only when present reads back as the written value, or as the fallback when absent |
| Messages.LowerOfLowerName | app/src/main/java/com/yarvis/assistant/network/WebSocketMessage.java:135-145 | every wire name of a content type is already lower case |
| Messages.ParseContentType | app/src/main/java/com/yarvis/assistant/network/WebSocketMessage.java:135-146 | a non-text result is the type whose wire name is the lowered input; a lowered input that names a type gives that type; anything else is plain text |
| Messages.ParseContentTypeName | app/src/main/java/com/yarvis/assistant/network/WebSocketMessage.java:135-146 | every wire name parses back to its own type |
| Messages.LinkFromJson | app/src/main/java/com/yarvis/assistant/network/WebSocketMessage.java:47-54 | a missing title or url defaults to "", a missing description to null |
| Messages.ItemFromJson | app/src/main/java/com/yarvis/assistant/network/WebSocketMessage.java:68-74 | a missing title defaults to "", a missing subtitle to null |
| Messages.LinksFromJson | app/src/main/java/com/yarvis/assistant/network/WebSocketMessage.java:109-119 | no `links` array means no links |
| Messages.ItemsFromJson | app/src/main/java/com/yarvis/assistant/network/WebSocketMessage.java:121-130 | no `items` array means no items |
| Messages.ShowFromJson | app/src/main/java/com/yarvis/assistant/network/WebSocketMessage.java:100-133 | show content exists exactly when the object does; a missing type means plain text |
| Messages.LinkRoundTrip | backend/src/types.ts:48-53 | a link as the backend writes it is read back unchanged by the client |
| Messages.ItemRoundTrip | backend/src/types.ts:55-59 | a list item as the backend writes it is read back unchanged |
| Messages.LinksRoundTrip | app/src/main/java/com/yarvis/assistant/network/WebSocketMessage.java:109-119 | the links of any show content are read back in order and unchanged |
| Messages.ItemsRoundTrip | app/src/main/java/com/yarvis/assistant/network/WebSocketMessage.java:121-130 | the items of any show content are read back in order and unchanged |
| Messages.ShowRoundTrip | backend/src/types.ts:37-46 | any show content the backend writes is read back unchanged |
| Messages.PutObj | backend/src/types.ts:72 | a present object is written under its key; an absent one is left out |
| Messages.PutShow | backend/src/types.ts:70 | present show content is written under `show`; absent show content is left out |
| Messages.ParseServerMessage | app/src/main/java/com/yarvis/assistant/network/WebSocketMessage.java:334-382 | unparseable text gives an error carrying the parser's message; a parsed object gives a message exactly when its type is one of the six the client knows |
| Messages.ShowFieldRoundTrip | app/src/main/java/com/yarvis/assistant/network/WebSocketMessage.java:346 | the `show` field of a message reads back as the show content that was written, or null |
| Messages.ResponseRoundTrip | app/src/main/java/com/yarvis/assistant/network/WebSocketMessage.java:340-347 | a response the backend writes is read as that response |
| Messages.StartRoundTrip | app/src/main/java/com/yarvis/assistant/network/WebSocketMessage.java:349-355 | a conversation start is read with its session, greeting ("" when absent), context and show |
| Messages.ServerRoundTrip | backend/src/types.ts:63-84 | every server message the backend writes is read by the client as its client view; the two authentication replies are not understood |
| Messages.ClientToJson | app/src/main/java/com/yarvis/assistant/network/WebSocketMessage.java:149-272 | every client message is written with a string `type` |
| Messages.StrField | backend/src/types.ts:18-25 | a field is read exactly when it is present and a string |
| Messages.ReadClientMessage | backend/src/handlers.ts:163-221 | a message is read only when it carries a string `type` |
| Messages.ClientRoundTrip | backend/src/types.ts:18-25 | the backend reads every client message exactly as the client wrote it |
| SessionClient.StartPingTask | app/src/main/java/com/yarvis/assistant/network/YarvisWebSocketClient.java:238-247 | after starting, exactly one ping task is pending and nothing else changes |
| SessionClient.ScheduleReconnect | app/src/main/java/com/yarvis/assistant/network/YarvisWebSocketClient.java:256-266 | nothing changes unless a connection is wanted; then exactly one reconnect task is pending and nothing else changes |
| SessionClient.DoConnect | app/src/main/java/com/yarvis/assistant/network/YarvisWebSocketClient.java:157-201 | a live connection is left alone; otherwise a connection is dialled exactly when it can be created, and a reconnect is scheduled when it cannot; the active session is kept |
| SessionClient.DoDisconnect | app/src/main/java/com/yarvis/assistant/network/YarvisWebSocketClient.java:69-79 | afterwards no connection is wanted, no task is pending, no session is active and the client is not connected; an existing connection is closed |
| SessionClient.SendCommand | app/src/main/java/com/yarvis/assistant/network/YarvisWebSocketClient.java:85-109 | when connected exactly the one message is sent; otherwise nothing is sent, the listener alone gets the not-connected error and without a listener nothing happens; the state is unchanged |
| SessionClient.ParamsText | app/src/main/java/com/yarvis/assistant/network/YarvisWebSocketClient.java:226 | action params are passed on as text exactly when present |
| SessionClient.HandleServerMessage | app/src/main/java/com/yarvis/assistant/network/YarvisWebSocketClient.java:203-236 | a start makes its session the active one and an end clears it only when it names it; nothing else changes the state; with a listener each message gives exactly its own notice (a pong none), and without one nothing is notified |
| SessionClient.NextValid | app/src/main/java/com/yarvis/assistant/network/YarvisWebSocketClient.java:238-273 | every event keeps at most one ping task and one reconnect task, and a reconnect pending only while a connection is wanted |
| SessionClient.Next | app/src/main/java/com/yarvis/assistant/network/YarvisWebSocketClient.java:56-201 | every event changes the listener only when it sets one, notifies only when a listener is present, and dials only into a state that wants a connection, holds one and is not yet linked |
| SessionClient.LinkLostIsSilentButDisconnects | app/src/main/java/com/yarvis/assistant/network/WebSocketConnection.java:242-249 | a link that ends without close or error notifies nothing, but the client is no longer connected: a later command gets the not-connected error and connect dials again |
| SessionClient.SendsOnlyWhenConnected | app/src/main/java/com/yarvis/assistant/network/YarvisWebSocketClient.java:85-134 | no event sends anything unless the client is connected |
| SessionClient.CommandsCarrySession | app/src/main/java/com/yarvis/assistant/network/YarvisWebSocketClient.java:85-109 | voice and chat messages carry the session active at the time of sending |
| SessionClient.EndConversationGated | app/src/main/java/com/yarvis/assistant/network/YarvisWebSocketClient.java:126-134 | with an active session and a connection, one end request naming the session is sent and the session is cleared; otherwise nothing happens |
| SessionClient.CloseAndErrorDiffer | app/src/main/java/com/yarvis/assistant/network/YarvisWebSocketClient.java:178-191 | a close stops pinging, forgets the session and tells the listener "disconnected"; an error keeps both and tells the listener "Error de conexión: " and the detail; either leaves the client not connected and schedules a reconnect if one is wanted; without a listener nothing is told |
| SessionClient.OpenStartsPinging | app/src/main/java/com/yarvis/assistant/network/YarvisWebSocketClient.java:166-170 | an opened link marks the client connected with exactly one ping task running and tells the listener "connected"; nothing else changes |
| SessionClient.StaysDisconnected | app/src/main/java/com/yarvis/assistant/network/YarvisWebSocketClient.java:256-266 | after disconnect, as long as connect is not called again, no connection is dialled and no reconnect is pending, whatever the transport and timers do |
| SessionClient.DisconnectQuiets | app/src/main/java/com/yarvis/assistant/network/YarvisWebSocketClient.java:322-325 | disconnect and destroy both lead to a state that wants no connection and has no reconnect pending |
| SocketService.RemoveFirst | app/src/main/java/com/yarvis/assistant/network/WebSocketService.java:239-241 | removing an absent listener changes nothing; removing a present one shortens the list by one and adds nothing |
| SocketService.RemoveFirstNoDuplicates | app/src/main/java/com/yarvis/assistant/network/WebSocketService.java:239-241 | in a list without duplicates, removal leaves no copy of the listener and keeps the list free of duplicates |
| SocketService.RemoveFirstCutsFirst | app/src/main/java/com/yarvis/assistant/network/WebSocketService.java:239-241 | removing a present listener cuts out exactly its first occurrence and keeps everything before and after it in order |
| SocketService.NotifyState | app/src/main/java/com/yarvis/assistant/network/WebSocketService.java:259-263 | every state listener, in registration order, is told the current connected and authenticated flags |
| SocketService.ForwardAll | app/src/main/java/com/yarvis/assistant/network/WebSocketService.java:370-377 | every message listener, in registration order, receives the event unchanged |
| SocketService.ForwardReachesEveryone | app/src/main/java/com/yarvis/assistant/network/WebSocketService.java:370-409 | a forwarded event reaches exactly the registered message listeners, each once, in order |
| SocketService.AddStateListener | app/src/main/java/com/yarvis/assistant/network/WebSocketService.java:228-234 | a listener already registered changes nothing; a new one is appended and told the current flags, and nobody else is told anything |
| SocketService.RemoveStateListener | app/src/main/java/com/yarvis/assistant/network/WebSocketService.java:239-241 | removing an unregistered listener changes nothing, and removal only touches the state listeners |
| SocketService.AddMessageListener | app/src/main/java/com/yarvis/assistant/network/WebSocketService.java:246-250 | the listener is registered afterwards; it is appended only when absent, and the state listeners are untouched |
| SocketService.RemoveMessageListener | app/src/main/java/com/yarvis/assistant/network/WebSocketService.java:255-257 | removing an unregistered listener changes nothing, and removal only touches the message listeners |
| SocketService.RegistrationKeepsValid | app/src/main/java/com/yarvis/assistant/network/WebSocketService.java:228-257 | registering and unregistering never creates a duplicate, and an unregistered listener is gone |
| SocketService.AddStateListenerTwice | app/src/main/java/com/yarvis/assistant/network/WebSocketService.java:228-234 | adding a state listener twice has the effect of adding it once |
| SocketService.Connect | app/src/main/java/com/yarvis/assistant/network/WebSocketService.java:145-167 | without a URL and a password nothing happens; otherwise any old client is destroyed before a new one is started, and the flags are left alone |
| SocketService.Disconnect | app/src/main/java/com/yarvis/assistant/network/WebSocketService.java:172-182 | both flags drop and the client is dropped; listeners are kept; the effects are exactly the destruction of an existing client followed by every state listener, in order, being told "not connected, not authenticated" |
| SocketService.Reconnect | app/src/main/java/com/yarvis/assistant/network/WebSocketService.java:187-192 | a disconnect first; when disabled, or when the URL or password is missing, nothing more; otherwise the disconnect's effects followed by starting a client for the URL, with the client held; in every case both flags end up down |
| SocketService.UpdateCredentials | app/src/main/java/com/yarvis/assistant/network/WebSocketService.java:197-208 | disabled settings only disconnect and start no client; enabled settings with a URL and a password start a client for the new URL |
| SocketService.OnClientNotice | app/src/main/java/com/yarvis/assistant/network/WebSocketService.java:343-409 | connected raises the connected flag; disconnected drops both flags; every other client event changes nothing and is forwarded to every message listener |
| SocketService.OnAuthResult | app/src/main/java/com/yarvis/assistant/network/WebSocketService.java:411-421 | only the authenticated flag follows the result; state listeners are told, then every message listener gets the result |
| SocketService.NoticeReachesEveryone | app/src/main/java/com/yarvis/assistant/network/WebSocketService.java:343-409 | every client event reaches every message listener once, in registration order |
| SocketService.StatusText | app/src/main/java/com/yarvis/assistant/network/WebSocketService.java:317-327 | authenticated reads "Conectado al backend"; connected but not authenticated "Conectando..."; otherwise the text depends on whether the backend is enabled |
| SocketService.StatusAfterDisconnect | app/src/main/java/com/yarvis/assistant/network/WebSocketService.java:172-182 | after a disconnect the notification never claims a connection or a connection in progress |
| Voice.RemoveWakeWord | app/src/main/java/com/yarvis/assistant/VoiceService.java:585-593 | text without a wake word comes back unchanged; with one, the result is the trimmed text without its first six characters, trimmed again, so at least six characters shorter and without leading or trailing blanks |
| Voice.WakeWordRoundTrip | app/src/main/java/com/yarvis/assistant/VoiceService.java:577-593 | a wake word in any letter case, after any leading whitespace and followed by a space and a trimmed command, is recognised, and removing it gives back exactly the command |
| Voice.CommandAfterWakeWord | app/src/main/java/com/yarvis/assistant/VoiceService.java:588 | cutting six characters and trimming leaves exactly the command that followed the wake word and its space |
| Voice.WakeWordLeads | app/src/main/java/com/yarvis/assistant/VoiceService.java:577-580 | a text whose trimmed form starts with a wake word in any case is recognised as addressed |
| Voice.AddressedIffLeadingWakeWord | app/src/main/java/com/yarvis/assistant/VoiceService.java:577-580 | a text counts as addressed exactly when its first six characters after trimming form "yarvis" or "jarvis" in some letter case |
| Voice.TrimAddressed | app/src/main/java/com/yarvis/assistant/VoiceService.java:586-588 | trimming an addressed utterance leaves the wake word and, when there is one, the space and the command |
| Voice.FirstRule | app/src/main/java/com/yarvis/assistant/VoiceService.java:624-666 | no rule applies exactly when no phrase of any rule occurs; otherwise the action is that of the first rule one of whose phrases occurs |
| Voice.CheckLocal | app/src/main/java/com/yarvis/assistant/VoiceService.java:624-666 | greetings win over hello, hello over the name question, the name question over farewells, each checked against the lowered text; anything else is delegated with the text as it was |
| Voice.Reply | app/src/main/java/com/yarvis/assistant/VoiceService.java:624-660 | every canned reply is broadcast with "WAKE: " or "COMMAND: " before the spoken words; delegated text has no canned reply |
| Voice.ProcessorReply | app/src/main/java/com/yarvis/assistant/VoiceService.java:680-691 | a processor result is spoken and broadcast exactly when it succeeded, and the words are its message |
| Voice.RouteSpeech | app/src/main/java/com/yarvis/assistant/VoiceService.java:600-618 | speech goes to the backend exactly when the backend is enabled, connected, a client exists and a wake word was said; then the command sent is the text without the wake word, or the prompt is spoken when nothing follows; everything else is handled locally |
| Voice.AddressedSpeechReachesBackend | app/src/main/java/com/yarvis/assistant/VoiceService.java:600-607 | with the backend usable, a wake word followed by a command sends exactly that command |
| Voice.NotificationText | app/src/main/java/com/yarvis/assistant/VoiceService.java:159-166 | the reading starts with the app, ends with the text, and holds the title exactly when the title is not empty |
| Voice.OnNotification | app/src/main/java/com/yarvis/assistant/VoiceService.java:140-174 | nothing happens when reading is off or the service is not running; a notification is forwarded with its missing fields filled in only when the backend is usable, and read aloud exactly when it is not |
| Voice.SpeakIf | app/src/main/java/com/yarvis/assistant/VoiceService.java:766-768 | a greeting or farewell is spoken exactly when it is present and non-empty |
| Voice.OnVoiceEvent | app/src/main/java/com/yarvis/assistant/VoiceService.java:700-781 | the backend counts as connected exactly when authenticated; a lost link, a disconnection or an ended conversation forgets the session; a start records it; the conversation flags stay consistent |
| Voice.ConversationStaysConsistent | app/src/main/java/com/yarvis/assistant/VoiceService.java:700-781 | over any run of callbacks, the service is in a conversation exactly when it knows a session |
| ChatModel.Build | app/src/main/java/com/yarvis/assistant/chat/ChatMessageModel.java:219-227 | fails with "type required" without a type and with "text required" without a text, and succeeds otherwise; a built message keeps every field given, takes the fresh id when none was given and the clock when the timestamp is not positive |
| ChatModel.BuiltTimestampPositive | app/src/main/java/com/yarvis/assistant/chat/ChatMessageModel.java:40-48 | with a positive clock every built message has a positive timestamp |
| ChatModel.FromUserVoice | app/src/main/java/com/yarvis/assistant/chat/ChatMessageModel.java:232-239 | a voice message is from the user, not from the assistant, is marked sending, has a fresh id, the given text and session, and no show content |
| ChatModel.FromUserText | app/src/main/java/com/yarvis/assistant/chat/ChatMessageModel.java:241-248 | a typed message is from the user, is marked sending, has a fresh id, the given text and session, and no show content |
| ChatModel.FromAssistantResponse | app/src/main/java/com/yarvis/assistant/chat/ChatMessageModel.java:250-258 | an assistant message is marked sent, takes the response's message id when it has one, and keeps its text, session and show content |
| ChatModel.SystemNote | app/src/main/java/com/yarvis/assistant/chat/ChatMessageModel.java:260-266 | a system message is neither from the user nor from the assistant, is marked sent, and keeps its text and session |
| ChatModel.SenderKinds | app/src/main/java/com/yarvis/assistant/chat/ChatMessageModel.java:63-69 | no message is both from the user and from the assistant; a message is from neither exactly when it is a system note or an executed action |
| ChatModel.PreviewText | app/src/main/java/com/yarvis/assistant/chat/ChatMessageModel.java:75-86 | the show text when there is one, else the show title, else the text itself up to 150 characters, or its first 147 characters and "..." when longer |
| ChatModel.HasMedia | app/src/main/java/com/yarvis/assistant/chat/ChatMessageModel.java:91-96 | a message without show content has no media; an image or a video is media; otherwise it has media exactly when the link list is not empty |
| ChatModel.UserMessagesArePlain | app/src/main/java/com/yarvis/assistant/chat/ChatMessageModel.java:75-96 | messages the user typed or said have no media and preview as their own text when it is short |
| ChatModel.TypeOf | app/src/main/java/com/yarvis/assistant/chat/ChatMessageModel.java:120 | a message type is read exactly from its enum name |
| ChatModel.StatusOf | app/src/main/java/com/yarvis/assistant/chat/ChatMessageModel.java:123 | a status is read exactly from its enum name |
| ChatModel.ContentEnumNameParses | app/src/main/java/com/yarvis/assistant/chat/ChatMessageModel.java:134 | the stored enum name of a content type parses back to that type, case being ignored |
| ChatModel.ShowContentToJson | app/src/main/java/com/yarvis/assistant/chat/ChatMessageModel.java:132-167 | the links and items arrays are stored exactly when they are not empty |
| ChatModel.ShowContentRoundTrip | app/src/main/java/com/yarvis/assistant/chat/ChatMessageModel.java:132-171 | stored show content reads back as the content that was stored |
| ChatModel.StoredLinks | app/src/main/java/com/yarvis/assistant/chat/ChatMessageModel.java:141-152 | stored links read back in order and unchanged |
| ChatModel.StoredItems | app/src/main/java/com/yarvis/assistant/chat/ChatMessageModel.java:154-164 | stored list items read back in order and unchanged |
| ChatModel.StoredKeyAgrees | app/src/main/java/com/yarvis/assistant/chat/ChatMessageModel.java:135-139 | apart from the type, links and items, the stored object holds the same fields as the backend's serialisation |
| Messages.SerialisedScalars | app/src/main/java/com/yarvis/assistant/chat/ChatMessageModel.java:135-139 | each optional text field of the backend's serialisation reads back as written |
| ChatModel.StoredScalars | app/src/main/java/com/yarvis/assistant/chat/ChatMessageModel.java:135-139 | each optional text field is stored so that it reads back as it was |
| ChatModel.ToJson | app/src/main/java/com/yarvis/assistant/chat/ChatMessageModel.java:100-114 | the session is stored exactly when there is one (a null put leaves the key out), and show content exactly when present |
| ChatModel.GetString | app/src/main/java/com/yarvis/assistant/chat/ChatMessageModel.java:118 | a string field is read exactly when the key is present, and a string value gives itself |
| ChatModel.FromJson | app/src/main/java/com/yarvis/assistant/chat/ChatMessageModel.java:116-130 | reading needs the id, type, text and timestamp; a missing status means sent and a missing session means none |
| ChatModel.JsonRoundTrip | app/src/main/java/com/yarvis/assistant/chat/ChatMessageModel.java:100-130 | a stored message with a positive timestamp reads back as the same message, null session and show content included |
| ChatHistory.InSession | app/src/main/java/com/yarvis/assistant/chat/ChatHistoryManager.java:161-169 | the messages of one session are exactly the listed messages that name it, never more than the list holds |
| ChatHistory.InSessionAppend | app/src/main/java/com/yarvis/assistant/chat/ChatHistoryManager.java:161-169 | selecting a session's messages distributes over concatenation, so their order is kept |
| ChatHistory.TitleOf | app/src/main/java/com/yarvis/assistant/chat/ChatHistoryManager.java:119-125 | a title is at most 50 characters: the text itself when short enough, else its first 47 characters and "..." |
| ChatHistory.KeepLast | app/src/main/java/com/yarvis/assistant/chat/ChatHistoryManager.java:129-131 | the trimming loop keeps the newest messages, at most the limit of them, in order |
| ChatHistory.Touched | app/src/main/java/com/yarvis/assistant/chat/ChatHistoryManager.java:109-126 | a session's entry is created at the message's time when missing, then stamped with the message's time and counted once more; a title, once set, stays, and is otherwise taken from a user message |
| ChatHistory.Record | app/src/main/java/com/yarvis/assistant/chat/ChatHistoryManager.java:109-126 | a message without a session changes no entry; otherwise only its own session's entry changes |
| ChatHistory.AddMessage | app/src/main/java/com/yarvis/assistant/chat/ChatHistoryManager.java:105-135 | the new message is last; the list grows by one up to 500 messages and is then the newest 500; only the message's session entry changes |
| ChatHistory.KeepLastInSession | app/src/main/java/com/yarvis/assistant/chat/ChatHistoryManager.java:129-131 | dropping old messages never adds to a session's share of the list |
| ChatHistory.RecordWellFiled | app/src/main/java/com/yarvis/assistant/chat/ChatHistoryManager.java:109-126 | every entry stays filed under its own id with a title of at most 50 characters |
| ChatHistory.AddKeepsKnown | app/src/main/java/com/yarvis/assistant/chat/ChatHistoryManager.java:105-131 | after adding, every listed message that names a session names a known one |
| ChatHistory.AddKeepsCounts | app/src/main/java/com/yarvis/assistant/chat/ChatHistoryManager.java:105-131 | after adding, no session has more listed messages than it has counted |
| ChatHistory.AddMessageValid | app/src/main/java/com/yarvis/assistant/chat/ChatHistoryManager.java:105-135 | adding a message, however many old ones it drops, keeps the bookkeeping invariant |
| ChatHistory.MessageCountCountsAdds | app/src/main/java/com/yarvis/assistant/chat/ChatHistoryManager.java:115-116 | a session's message count counts every message ever added to it, including those the limit has since dropped |
| ChatHistory.TitleFromFirstUserMessage | app/src/main/java/com/yarvis/assistant/chat/ChatHistoryManager.java:119-125 | over any run of additions a title, once set, never changes; until then it comes from the first user message of the session |
| ChatHistory.TitleStep | app/src/main/java/com/yarvis/assistant/chat/ChatHistoryManager.java:119-125 | one addition sets the title only for the message's own untitled session, and only from a user message |
| ChatHistory.FirstWithId | app/src/main/java/com/yarvis/assistant/chat/ChatHistoryManager.java:141-142 | the position found is the first message with the id; none is found exactly when no message has it |
| ChatHistory.SetStatusOfFirst | app/src/main/java/com/yarvis/assistant/chat/ChatHistoryManager.java:141-147 | only the first message with the id changes, and only its status; with no such message nothing changes |
| ChatHistory.UpdateMessageStatus | app/src/main/java/com/yarvis/assistant/chat/ChatHistoryManager.java:140-149 | the sessions and the length stay; only the first message with the id gets the new status; nothing changes when no message has the id |
| ChatHistory.UpdateMessageStatusValid | app/src/main/java/com/yarvis/assistant/chat/ChatHistoryManager.java:140-149 | changing a status keeps the bookkeeping invariant |
| ChatHistory.SameSessionsSameCount | app/src/main/java/com/yarvis/assistant/chat/ChatHistoryManager.java:140-149 | lists that agree on every message's session have as many messages in each session |
| ChatHistory.MessagesForSession | app/src/main/java/com/yarvis/assistant/chat/ChatHistoryManager.java:161-169 | the result holds exactly the listed messages of the session |
| ChatHistory.Sub32 | app/src/main/java/com/yarvis/assistant/chat/ChatHistoryManager.java:175 | Java int subtraction: a 32-bit result congruent to the exact difference modulo 2^32 |
| ChatHistory.RecentMessages | app/src/main/java/com/yarvis/assistant/chat/ChatHistoryManager.java:174-177 | a non-negative count gives the newest min(count, size) messages in order; a negative count fails unless the 32-bit subtraction wraps, and then gives the whole list |
| ChatHistory.InsertByActivity | app/src/main/java/com/yarvis/assistant/chat/ChatHistoryManager.java:184 | inserting keeps the list newest first and adds exactly that one entry |
| ChatHistory.SortByActivity | app/src/main/java/com/yarvis/assistant/chat/ChatHistoryManager.java:184 | the result is newest first and a permutation of the input |
| ChatHistory.AllSessions | app/src/main/java/com/yarvis/assistant/chat/ChatHistoryManager.java:182-186 | every session exactly once in the order's permutation, newest activity first |
| ChatHistory.GetSession | app/src/main/java/com/yarvis/assistant/chat/ChatHistoryManager.java:191-193 | an entry exactly when the session is known, and then its entry |
| ChatHistory.ClearHistory | app/src/main/java/com/yarvis/assistant/chat/ChatHistoryManager.java:198-203 | no messages and no sessions remain, and the invariant holds |
| ChatHistory.WithoutSession | app/src/main/java/com/yarvis/assistant/chat/ChatHistoryManager.java:209 | the remaining messages are exactly those not naming the session |
| ChatHistory.ClearSession | app/src/main/java/com/yarvis/assistant/chat/ChatHistoryManager.java:208-212 | the session's messages and entry are gone; every other message and entry stays |
| ChatHistory.ClearSessionKeepsOthers | app/src/main/java/com/yarvis/assistant/chat/ChatHistoryManager.java:208-212 | clearing one session leaves every other session's messages, in order, as they were |
| ChatHistory.ClearSessionValid | app/src/main/java/com/yarvis/assistant/chat/ChatHistoryManager.java:208-212 | clearing a session keeps the bookkeeping invariant |
| Repository.IndexOf | app/src/main/java/com/yarvis/assistant/processing/Repository.java:34-38 | the position found holds the id and no earlier item does; none is found exactly when no item has the id |
| Repository.FindById | app/src/main/java/com/yarvis/assistant/processing/Repository.java:56-62 | the first stored item with the id, and nothing exactly when no item has it |
| Repository.Add | app/src/main/java/com/yarvis/assistant/processing/Repository.java:23-29 | accepted exactly when the item is not null and its id is new; then appended; otherwise nothing changes |
| Repository.Upsert | app/src/main/java/com/yarvis/assistant/processing/Repository.java:31-43 | a null item changes nothing; an item whose id is present replaces the first such item in place (true); otherwise it is appended (false) |
| Repository.RemoveById | app/src/main/java/com/yarvis/assistant/processing/Repository.java:45-54 | returns what findById would; removes exactly that item, the first with the id, keeping the rest in order; nothing changes when none has it |
| Repository.FindAll | app/src/main/java/com/yarvis/assistant/processing/Repository.java:64-70 | exactly the stored items satisfying the predicate |
| Repository.FindAllAppend | app/src/main/java/com/yarvis/assistant/processing/Repository.java:64-70 | filtering distributes over concatenation, so stored order is kept |
| Repository.Clear | app/src/main/java/com/yarvis/assistant/processing/Repository.java:90-94 | nothing remains |
| Repository.AddKeepsUnique | app/src/main/java/com/yarvis/assistant/processing/Repository.java:23-29 | adding keeps the ids pairwise distinct |
| Repository.UpsertKeepsUnique | app/src/main/java/com/yarvis/assistant/processing/Repository.java:31-43 | upserting keeps the ids pairwise distinct |
| Repository.RemoveKeepsUnique | app/src/main/java/com/yarvis/assistant/processing/Repository.java:45-54 | removing keeps the ids distinct and leaves no item with the removed id |
| Repository.AddThenFind | app/src/main/java/com/yarvis/assistant/processing/Repository.java:23-62 | after a successful add, findById returns the added item |
| LruCache.IndexOf | app/src/main/java/com/yarvis/assistant/processing/Cache.java:64 | the position found holds the key and no earlier entry does; none exactly when the key is absent |
| LruCache.Without | app/src/main/java/com/yarvis/assistant/processing/Cache.java:88-92 | dropping one position keeps every other entry in order |
| LruCache.WithoutKeepsUnique | app/src/main/java/com/yarvis/assistant/processing/Cache.java:88-92 | dropping an entry keeps the keys distinct and removes that key entirely |
| LruCache.Lookup | app/src/main/java/com/yarvis/assistant/processing/Cache.java:64 | an entry exactly when the key is stored, and then an entry stored under it |
| LruCache.NewCache | app/src/main/java/com/yarvis/assistant/processing/Cache.java:40-50 | a new cache keeps its bound and default time-to-live, holds nothing and satisfies the bound and unique keys; a negative bound is refused, as the backing map refuses it |
| LruCache.Put | app/src/main/java/com/yarvis/assistant/processing/Cache.java:56-60 | an existing key moves to the most recently used end with the new value and expiry now + ttl; a new key is appended, and when that overflows the bound the least recently used entry goes |
| LruCache.PutValid | app/src/main/java/com/yarvis/assistant/processing/Cache.java:44-60 | a put keeps the keys distinct and the size within the bound |
| LruCache.PutThenLookup | app/src/main/java/com/yarvis/assistant/processing/Cache.java:56-60 | after a put, with room for one entry, the key holds the new value and expiry |
| LruCache.PutEvictsEldest | app/src/main/java/com/yarvis/assistant/processing/Cache.java:44-60 | a new key put into a full cache evicts exactly the least recently used entry; every other entry stays, in order |
| LruCache.Get | app/src/main/java/com/yarvis/assistant/processing/Cache.java:62-74 | a value exactly when the key is stored and not expired, and then its value; an absent key changes nothing; an expired entry is removed; a live entry becomes most recently used |
| LruCache.GetValid | app/src/main/java/com/yarvis/assistant/processing/Cache.java:62-74 | a get keeps the invariant, and the key is still stored afterwards exactly when the get returned a value |
| LruCache.GetOrCompute | app/src/main/java/com/yarvis/assistant/processing/Cache.java:80-86 | a live cached value is returned as it is; otherwise the computed value is stored with the default time-to-live and returned |
| LruCache.ComputedIsCached | app/src/main/java/com/yarvis/assistant/processing/Cache.java:80-86 | after getOrCompute the key is stored with the value returned |
| LruCache.Remove | app/src/main/java/com/yarvis/assistant/processing/Cache.java:88-92 | removing an absent key changes nothing; removing a stored key drops exactly its entry, and the entries kept stay in their order |
| LruCache.RemoveForgets | app/src/main/java/com/yarvis/assistant/processing/Cache.java:88-92 | after remove the key is gone and the invariant holds |
| LruCache.Clear | app/src/main/java/com/yarvis/assistant/processing/Cache.java:94-98 | no key is stored afterwards and the bound is kept |
| LruCache.EvictExpired | app/src/main/java/com/yarvis/assistant/processing/Cache.java:109-113 | exactly the expired entries go; the live ones stay, in their order |
| LruCache.LiveEntries | app/src/main/java/com/yarvis/assistant/processing/Cache.java:111 | the kept entries are exactly the unexpired ones |
| LruCache.LiveEntriesAppend | app/src/main/java/com/yarvis/assistant/processing/Cache.java:111 | filtering two runs of entries one after the other gives the two filtered runs one after the other |
| LruCache.LiveEntriesUnique | app/src/main/java/com/yarvis/assistant/processing/Cache.java:111 | dropping expired entries keeps the keys distinct |
| LruCache.EvictExpiredValid | app/src/main/java/com/yarvis/assistant/processing/Cache.java:109-113 | evicting keeps the invariant and leaves no expired entry |
| Commands.SystemCommandWithoutValue | app/src/main/java/com/yarvis/assistant/processing/CommandType.java:94-96 | the three-argument constructor builds a system command whose value is -1, the other fields as given |
| Commands.Category | app/src/main/java/com/yarvis/assistant/processing/CommandType.java:57-180 | each of the four subclasses has its own category, MEDIA, SYSTEM, QUERY or COMMUNICATION, and no two share one |
| Commands.DescriptionNamesCategory | app/src/main/java/com/yarvis/assistant/processing/CommandType.java:57-180 | every description starts with a prefix from which the command's category can be read back |
| Commands.Description | app/src/main/java/com/yarvis/assistant/processing/CommandType.java:73-173 | a media description ends with the target in quotes ("current" without one), a system one with " to " and the value when there is one, a query one with the query, a communication one with " to " and the recipient |
| Commands.Accept | app/src/main/java/com/yarvis/assistant/processing/CommandType.java:48-195 | the visitor method called is the one for the command's category |
| Commands.NewResult | app/src/main/java/com/yarvis/assistant/processing/CommandResult.java:31-41 | a null id is refused; otherwise a null message reads as empty and null metadata as none, every other field as given |
| Commands.Success | app/src/main/java/com/yarvis/assistant/processing/CommandResult.java:64-73 | a success with time 0, no metadata, the fresh id and the message or empty |
| Commands.SuccessTimed | app/src/main/java/com/yarvis/assistant/processing/CommandResult.java:75-84 | the same success as the untimed factory, carrying the execution time |
| Commands.Failure | app/src/main/java/com/yarvis/assistant/processing/CommandResult.java:86-95 | a failure with time 0, no metadata, the fresh id and the message or empty |
| Commands.FailureWithCause | app/src/main/java/com/yarvis/assistant/processing/CommandResult.java:97-106 | a failure whose message appends ": " and the cause's message, and whose metadata names the cause's class, or "Unknown" without a cause |
| Commands.WithMessage | app/src/main/java/com/yarvis/assistant/processing/CommandResult.java:154-157 | a copy that differs from the original in the message alone, a null message reading as empty |
| Commands.WithMetadata | app/src/main/java/com/yarvis/assistant/processing/CommandResult.java:162-165 | a copy that differs from the original in the metadata alone, null reading as none |
| Commands.MediaWithoutTarget | app/src/main/java/com/yarvis/assistant/processing/CommandType.java:72-75 | a media command without a target is described as acting on 'current' |
| Commands.SystemValueShown | app/src/main/java/com/yarvis/assistant/processing/CommandType.java:109-113 | a system command names its value after " to " exactly when the value is not negative |
| Commands.ResultEqualsIsEquality | app/src/main/java/com/yarvis/assistant/processing/CommandResult.java:116-127 | two results are equal exactly when all six fields agree |
| Commands.CopiesWithSameFieldsAreEqual | app/src/main/java/com/yarvis/assistant/processing/CommandResult.java:154-165 | copying a result with its own message or its own metadata gives an equal result |
| Processor.Process | app/src/main/java/com/yarvis/assistant/processing/CommandProcessor.java:55-106 | a command failing validation gets one failure and nothing changes; a cache hit passes the cached result on before processing continues; a returned result is rewrapped as a timed success, stored, and cached with the default lifetime counted from the end of the execution; a thrown exception gives a failure naming the cause that is neither cached nor stored |
| Processor.SuccessIsCached | app/src/main/java/com/yarvis/assistant/processing/CommandProcessor.java:84-97 | after a successful run the final result is found in the cache under the command id |
| Processor.DefaultValidation | app/src/main/java/com/yarvis/assistant/processing/CommandProcessor.java:136-138 | for a processor that keeps the default check, a command passes exactly when it has an id |
| Processor.Validate | app/src/main/java/com/yarvis/assistant/processing/CommandProcessor.java:136-138 | a command without an id never passes; a media command without an action and a communication command without a non-empty recipient never pass; a system or query command passes exactly when it has an id |
| Processor.ValidationFailureIsInert | app/src/main/java/com/yarvis/assistant/processing/CommandProcessor.java:59-63 | a command failing validation leaves cache and results alone and gets exactly one failure |
| Processor.ReturnedIsSuccess | app/src/main/java/com/yarvis/assistant/processing/CommandProcessor.java:80-88 | whatever the execution returns is re-wrapped as a success keeping its message, even a failure |
| Processor.Shutdown | app/src/main/java/com/yarvis/assistant/processing/CommandProcessor.java:175-178 | the cache is emptied and the stored results stay |
| CommandManager.FirstAltAt | app/src/main/java/com/yarvis/assistant/processing/CommandProcessorManager.java:28-30 | the first alternative, in listed order, that occurs at the position; none exactly when no alternative occurs there |
| CommandManager.FindFrom | app/src/main/java/com/yarvis/assistant/processing/CommandProcessorManager.java:61-63 | the earliest position where some alternative occurs and the first alternative occurring there; none exactly when no position has one |
| CommandManager.FindIffContains | app/src/main/java/com/yarvis/assistant/processing/CommandProcessorManager.java:61-62 | the media search succeeds exactly when the text contains one of the keywords |
| CommandManager.SpaceRun | app/src/main/java/com/yarvis/assistant/processing/CommandProcessorManager.java:33 | the maximal run of whitespace characters starting at the position |
| CommandManager.MediaKeywordsMapped | app/src/main/java/com/yarvis/assistant/processing/CommandProcessorManager.java:116-147 | each media keyword is mapped to the action beside it in the pattern |
| CommandManager.SettingFor | app/src/main/java/com/yarvis/assistant/processing/CommandProcessorManager.java:151-169 | each setting keyword of the pattern gives its setting: wifi WIFI, bluetooth BLUETOOTH, linterna and flashlight FLASHLIGHT, brillo BRIGHTNESS; any other word the default WIFI |
| CommandManager.OperationFor | app/src/main/java/com/yarvis/assistant/processing/CommandProcessorManager.java:171-186 | each operation keyword of the pattern gives its operation: activar and encender ENABLE, desactivar and apagar DISABLE, toggle TOGGLE; any other word the default TOGGLE |
| CommandManager.SystemAt | app/src/main/java/com/yarvis/assistant/processing/CommandProcessorManager.java:32-34 | a match at one position names one of the given operations and one of the given settings |
| CommandManager.SystemFind | app/src/main/java/com/yarvis/assistant/processing/CommandProcessorManager.java:66-69 | the groups exist exactly when find() finds a position, and are then the groups matched at that position, one listed operation and one listed setting |
| CommandManager.SystemAtMatches | app/src/main/java/com/yarvis/assistant/processing/CommandProcessorManager.java:32-34 | a match at a position is the operation, at least one whitespace character and the setting, all at that position |
| CommandManager.SystemAtNoneIff | app/src/main/java/com/yarvis/assistant/processing/CommandProcessorManager.java:32-34 | no match at a position exactly when no operation/setting pair of the pattern occurs there |
| CommandManager.SystemPos | app/src/main/java/com/yarvis/assistant/processing/CommandProcessorManager.java:66-67 | find() reports a position at or after the start where the pattern matches, and no position between the start and it matches; when it reports none, no position from the start on matches |
| CommandManager.SystemFindEarliest | app/src/main/java/com/yarvis/assistant/processing/CommandProcessorManager.java:66-69 | the groups returned are an operation, whitespace and a setting at the earliest position holding any such pair; no earlier position, and no position at all when nothing is returned, holds one |
| CommandManager.BranchOf | app/src/main/java/com/yarvis/assistant/processing/CommandProcessorManager.java:57-113 | each branch is taken exactly when its pattern matches and no earlier one does: media when a media keyword occurs, system when a setting and an operation are found, call when the call pattern matches, SMS when the SMS pattern matches, and a query otherwise, a time query exactly on a time phrase and a date query exactly on a date phrase without one |
| CommandManager.Parse | app/src/main/java/com/yarvis/assistant/processing/CommandProcessorManager.java:52-114 | a null or empty text gives nothing and every other text a command with the fresh id; its subclass is that of the branch taken; a media command carries the action of the earliest keyword and no target; a system command has the setting and operation of the first match and no value; a query keeps the original text and has the type of its branch; a call or SMS command has its type and the trimmed captured recipient, an SMS its captured message |
| CommandManager.PauseIsPause | app/src/main/java/com/yarvis/assistant/processing/CommandProcessorManager.java:116-126 | "Pause" is read as the PAUSE action although earlier alternatives are tried first |
| CommandManager.FirstHandler | app/src/main/java/com/yarvis/assistant/processing/CommandProcessorManager.java:238-244 | the first registered processor that can handle the command; none exactly when no processor can |
| CommandManager.EachCategoryHasItsProcessor | app/src/main/java/com/yarvis/assistant/processing/CommandProcessorManager.java:216-222 | in a fresh manager each command is handled by the processor of its own category |
| CommandManager.ProcessText | app/src/main/java/com/yarvis/assistant/processing/CommandProcessorManager.java:225-248 | an unparsable text reports one failure and changes nothing; a parsed command is recorded in the history and handed to the first processor that can handle it, or reported as having none for its category |
| CommandManager.ProcessCommand | app/src/main/java/com/yarvis/assistant/processing/CommandProcessorManager.java:251-262 | the command is recorded and handed to the first processor that can handle it, only that processor's state changing; with none, one failure |
| CommandManager.ProcessTextIsParseThenProcess | app/src/main/java/com/yarvis/assistant/processing/CommandProcessorManager.java:225-262 | processing a text equals processing the command it parses to, except for the failure message when no processor takes it |
| CommandManager.Shutdown | app/src/main/java/com/yarvis/assistant/processing/CommandProcessorManager.java:272-278 | no processor and no history remain |
| CommandManager.NothingHandledAfterShutdown | app/src/main/java/com/yarvis/assistant/processing/CommandProcessorManager.java:225-248 | after shutdown every parsable text is answered with the no-processor failure for its category |
| OrderedMap.Empty | backend/src/sessions.ts:8-9 | a new map has no keys and keeps its invariant |
| OrderedMap.Get | backend/src/sessions.ts:50-52 | a value exactly when the key is present |
| OrderedMap.Values | backend/src/sessions.ts:121-123 | one value per key, in insertion order, each the value stored under its key |
| OrderedMap.Set | backend/src/sessions.ts:35 | the key maps to the new value and no other key changes; an existing key keeps its place in the order and a new key goes to the end |
| OrderedMap.Remove | backend/src/sessions.ts:93 | exactly the other elements remain |
| OrderedMap.RemoveKeepsDistinct | backend/src/sessions.ts:93 | removing an element keeps the others distinct |
| OrderedMap.Delete | backend/src/sessions.ts:89 | reports whether the key was present; the key is gone, the order loses just that key, and no other key changes |
| OrderedMap.Add | backend/src/sessions.ts:41 | adding to a set keeps a present member in its place and appends a new one |
| OrderedMap.SetThenDelete | backend/src/sessions.ts:35-89 | deleting a newly set key restores the map, order included |
| Sessions.NewManager | backend/src/sessions.ts:13-16 | a manager starts with no sessions and an exact index |
| Sessions.CreateSession | backend/src/sessions.ts:21-45 | a new session of the client, started and last active now, stored under its fresh id and indexed under the client; no other session changes |
| Sessions.CreateValid | backend/src/sessions.ts:21-45 | with a fresh id, creation keeps every session indexed exactly under its own client |
| Sessions.GetSession | backend/src/sessions.ts:50-52 | a session exactly when one is stored under the id |
| Sessions.Latest | backend/src/sessions.ts:62-69 | the loop keeps a session at least as recent as every other, the earliest among equals, and none exactly when no listed id is stored |
| Sessions.ActiveSession | backend/src/sessions.ts:57-70 | none exactly when none of the client's indexed ids is stored |
| Sessions.ActiveSessionOfClient | backend/src/sessions.ts:57-70 | over an exact index the active session exists exactly when the client has a session, belongs to that client, and is at least as recent as each of its sessions |
| Sessions.UpdateActivity | backend/src/sessions.ts:75-80 | the session's last activity becomes now and nothing else changes; an unknown id changes nothing |
| Sessions.UpdateActivityValid | backend/src/sessions.ts:75-80 | updating activity keeps the index exact |
| Sessions.EndSession | backend/src/sessions.ts:85-101 | returns the stored session or nothing; that session is gone and every other one stays |
| Sessions.EndSessionValid | backend/src/sessions.ts:85-101 | ending a session keeps the index exact and drops a client whose set becomes empty |
| Sessions.EndAll | backend/src/sessions.ts:111-114 | every listed session is gone and every unlisted one stays |
| Sessions.EndAllValid | backend/src/sessions.ts:111-114 | ending several sessions keeps the index exact |
| Sessions.EndAllReturnsStored | backend/src/sessions.ts:110-115 | ending distinct ids returns exactly the sessions stored under them, in order |
| Sessions.EndSessionsForClient | backend/src/sessions.ts:106-116 | an unknown client changes nothing and returns nothing; sessions outside the client's set stay |
| Sessions.EndSessionsForClientSpec | backend/src/sessions.ts:106-116 | exactly the client's sessions are ended and returned in creation order, every other session stays, and the client is left with none |
| Sessions.EndSessionsForClientKeepsOthers | backend/src/sessions.ts:106-116 | the sessions left are exactly those of other clients |
| Sessions.AllSessions | backend/src/sessions.ts:121-123 | every stored session once, in creation order |
| Sessions.HasActiveSessionIff | backend/src/sessions.ts:128-131 | over an exact index the index entry tells exactly whether the client has a stored session |
| Sessions.ExpiredIds | backend/src/sessions.ts:140-141 | exactly the stored sessions inactive for longer than the timeout, each once |
| Sessions.CleanupExpired | backend/src/sessions.ts:136-152 | one report line per expired session, in creation order, naming the session and its client |
| Sessions.CleanupExpiredSpec | backend/src/sessions.ts:136-152 | exactly the expired sessions are ended, every other session stays as it was, and no expired session remains |
| Workflow.Or | backend/src/handlers.ts:36 | the optional text when present and non-empty, else the fallback |
| MockWorkflow.Table | backend/src/mock-workflow.ts:11-196 | the table holds twelve entries |
| MockWorkflow.FirstMatch | backend/src/mock-workflow.ts:236-243 | the first entry from the position on with a matching pattern; none exactly when no later entry matches |
| MockWorkflow.Answer | backend/src/mock-workflow.ts:236-248 | the response of an entry that matches while no earlier entry does, else (no entry matching) the fallback |
| MockWorkflow.SendVoiceCommand | backend/src/mock-workflow.ts:224-248 | answering from the table with the default as fallback always reports success |
| MockWorkflow.JokeRequestGetsGreeting | backend/src/mock-workflow.ts:13-23 | "chiste" is answered with the greeting, since it contains "hi" and the greeting entry is tried first |
| MockWorkflow.SendNotification | backend/src/mock-workflow.ts:253-284 | an app whose lowered name contains an important app gets a conversation opener naming app and title; any other a bare success |
| Handlers.EndIntentWhenSaid | backend/src/handlers.ts:12-21 | a text containing an end phrase, whatever surrounds it, is an end intent |
| Handlers.ProcessWorkflowResponse | backend/src/handlers.ts:26-80 | a failure sends one error, with a default text; an agent end sends the farewell and an end of conversation and ends the session; otherwise a response when there is text, then an action when there is one; the flag is the result's success |
| Handlers.HandleText | backend/src/handlers.ts:85-122 | the active session is touched; an end intent ends it with the user farewell and no workflow call; anything else asks the workflow with the session's id and context, and the sessions and messages are exactly those of processing the answer against the touched sessions |
| Handlers.HandleNotification | backend/src/handlers.ts:127-158 | the workflow is always asked; a successful answer with text opens a system session when it asks to start a conversation and is otherwise spoken; any other answer sends nothing |
| Handlers.HandleClientMessage | backend/src/handlers.ts:163-221 | ping gets pong; a voice command is handled spoken and a chat message silent; a notification is exactly the notification handler's result; an end request ends the named session, whoever owns it, and sends nothing |
| Handlers.HandleClientMessageValid | backend/src/handlers.ts:163-221 | every handler keeps the session index exact, given a fresh id |
| Handlers.EndsAnotherClientsSession | backend/src/handlers.ts:212-218 | an end request removes a session owned by another client, and sends nothing |
| Handlers.HandleTextValid | backend/src/handlers.ts:85-122 | handling a text keeps the session index exact |
| Handlers.GoodbyeEndsConversation | backend/src/handlers.ts:98-112 | saying "adiós" in an active conversation ends it by user request without asking the workflow |
| Handlers.MockNotificationOpensConversation | backend/src/mock-workflow.ts:253-284 | with the mock workflow an important app's notification opens a system conversation greeting with app and title; any other sends nothing and changes nothing |
| Connections.Empty | backend/src/connections.ts:16 | a new manager has no connections |
| Connections.Add | backend/src/connections.ts:21-25 | the client maps to the new connection, replacing any earlier one; no other client changes |
| Connections.Remove | backend/src/connections.ts:30-32 | reports whether the client was connected; it no longer is and no other client changes |
| Connections.AddThenRemove | backend/src/connections.ts:21-32 | removing a newly added client restores the manager |
| Connections.AllClientIds | backend/src/connections.ts:65-67 | every connected client once |
| Connections.SendTo | backend/src/connections.ts:72-83 | true exactly when the client is connected, its socket is open and the send does not throw |
| Connections.Reached | backend/src/connections.ts:90-99 | exactly the listed clients whose sends go through |
| Connections.Broadcast | backend/src/connections.ts:88-101 | the count is the number of distinct clients whose socket is open and whose send does not throw |
| Connections.ReachedDistinct | backend/src/connections.ts:90-99 | a broadcast reaches each client at most once |
| Connections.BroadcastAgreesWithSendTo | backend/src/connections.ts:72-101 | a broadcast reaches a client exactly when sending to that client alone would succeed |
| Connections.BroadcastReachesAllWhenOpen | backend/src/connections.ts:88-101 | with every socket open and quiet the count is the number of connections |

## Left out

- Text encoding: strings are sequences of characters. The UTF-8 bytes of a text frame and of the handshake are not modelled, and a text frame's payload is handed on as bytes.
- SHA-1 and Base64 for the `Sec-WebSocket-Accept` check are a parameter, not computed.
- Threads, executors, `synchronized` blocks, `volatile` fields and the interleaving of async handlers are not modelled. Each operation is one atomic step, and callbacks are listed in the order they fire.
- Timers are not modelled: the ping `Timer`, the reconnect `Handler` delay, the session cleanup `setInterval` and `destroy`. Their firing is an explicit event.
- JSON text is not modelled: parsing and `JSON.stringify`/`toString` are absent, and messages are abstract JSON values. Rendering a value to text is a parameter where the code prints one.
- Locale-dependent text is not modelled: Unicode case folding, `toLocale*` formats and `String.format` of numbers beyond decimal integers. Lowering is ASCII only, and the mock workflow's time and date texts are the `LoadClock` argument.
- Java object identity is not modelled: listeners are compared by value, and shallow copies are values.
- The mock workflow's simulated delay and `healthCheck`, and the real `WorkflowClient` HTTP calls (`workflow.ts`), are not modelled. The workflow's answer is an argument.
- `routes.ts`, `websocket.ts` and `index.ts` are not modelled: they are the HTTP routes, the socket server wiring and the start-up.
- Android services, intents, notifications, text-to-speech and speech recognition in `VoiceService` are not modelled. Only its pure routing helpers and conversation flags are.
- `CALL`/`SMS` capture groups: the model does not evaluate the groups of the SMS pattern or the group of the CALL pattern. They are the `Captures` argument, and only whether the CALL pattern matches is decided in the model.
- `CommandProcessorManager.processWithVisitor` is `Commands.Accept` applied to the command and is not modelled separately.
- The concrete processors' `execute` (media keys, settings panels, calls, SMS) is not modelled. Its result or exception is the `Outcome` argument.
- Persistence of the chat history is not modelled: `loadFromStorage`, `saveToStorage` and the JSON form of `SessionInfo`. Neither are the history's change listeners.
- Overflow is not modelled for the `long` timestamps or the `int` message counters, except for the explicit `int` subtraction in `getRecentMessages`.
- `ChatHistoryManager.getAllSessions` sorts sessions out of a `HashMap`. The order among sessions with equal activity times is that `HashMap`'s iteration order, which is an argument.
- A `null` session id reaching `ChatHistoryManager` throws in the code. The model has no null session id.
- Absent `links` and `items` in show content are read as empty lists. The code's `null` is not kept apart from an empty list.
- The `production` flag is a parameter of the backend handlers, read from the message with `false` when absent.
- Authentication and password change: `WebSocketService` calls `authenticate` and `changePassword` methods that the client model does not have. Authentication enters the model only as an explicit result event (`SocketService.OnAuthResult`).
- `ConnectionManager.forEach`, `get`, `has` and `size` are plain map reads. They are the helpers `Connections.Get`, `Connections.Has` and `Connections.Size`.
- Transport.EndOfStreamIsSilent: states the silence only for a stream that ends before a first frame header is complete. A stream that ends after whole frames is covered by `Transport.LoopOverFrames`, whose reference callbacks contain no close or error for the end.
- FrameCodec.DecodeFrame: its own contract bounds the position it returns. That a written frame decodes to itself is stated separately, by `FrameCodec.RoundTrip` and `FrameCodec.RfcRoundTrip`.
- Transport.LoopOverFrames: reads back masked frames written with the RFC 6455 length field. The frames the code writes decode the same way (`FrameCodec.RoundTrip`), because the reader skips the four bytes the writer gets wrong. Unmasked frames as a server sends them are covered separately, in every length form, by `Transport.LoopOverServerFrames`.
- SessionClient.Next: `Destroy` is modelled as `disconnect`. The `scheduler.shutdown()` that follows it in `destroy` (YarvisWebSocketClient.java:322-325) is not modelled, because scheduled tasks are explicit events here. After a destroy, the model still accepts a later `connect`, which the real client would refuse to schedule.
- ChatHistory.TitleOf: counts Dafny characters. Java's `length` and `substring` count UTF-16 code units, so for text outside the Basic Multilingual Plane the 47 and 50 limits are not modelled exactly.
- ChatModel.PreviewText: counts Dafny characters, as `ChatHistory.TitleOf` does. The 147 and 150 limits count UTF-16 code units in the code.
- Messages.ReadClientMessage: requires a numeric `timestamp` on a `voice_command` and a `chat_message`, as the `ClientMessage` type declares it (backend/src/types.ts:19-20). The handler in backend/src/handlers.ts:175-195 never reads the field, so the real backend would also handle a message without one. The model does not cover that case.
- JSON numbers are integers only. Fractional numbers are not modelled, and neither is `getLong` accepting a numeric string in place of a number.

## Findings

| source | as written | input that shows it | evidently intended | confidence | as-written member | corrected member |
|---|---|---|---|---|---|---|
| app/src/main/java/com/yarvis/assistant/network/WebSocketConnection.java:277-281 | the 8-byte length of a payload of 65536 bytes or more is written by shifting an `int` by 56, 48, 40 and 32 bits; Java takes shift distances modulo 32, so the high four bytes repeat the low four | any payload of 65536 bytes or more: the eight bytes denote the length times 2^32 + 1 instead of the length | the 64-bit big-endian length of section 5.2 of RFC 6455, whose high four bytes are zero for any Java array | not executed | FrameCodec.LongLengthIsNotRfcLength | FrameCodec.RfcLengthField |
