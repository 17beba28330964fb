# phpws protocol layer, modelled in Dafny

This project models the protocol layer of the phpws WebSocket server. That layer:

- chooses the dialect a peer speaks (legacy Hixie, Flash policy request, or modern Hybi);
- writes the Hixie or Hybi handshake response;
- routes each received Hybi frame either to the control handling (Close is answered with Close and a disconnect, Ping with Pong) or to the one-slot message assembler, which hands each finalised message to `onMessage`;
- sends frames and messages, stopping at the first failed write;
- closes a connection in the way each dialect does it.

Layout, one module per file:

- `frames.dfy` (`Frames`): opcodes, frames and messages as abstract values.
- `headers.dfy` (`Headers`): the header map. PHP's `isset` becomes `Lookup`, and string interpolation becomes `Interpolate`.
- `collaborators.dfy` (`Collaborators`): the routines whose bodies are not modelled. They are fields of one `Codecs` value and are not interpreted.
- `handshake.dfy` (`Handshake`): the response texts and the `substr($h, -8)` trailer.
- `factory.dfy` (`Factory`): PHP's `strpos` and the dialect choice.
- `transport.dfy` (`Transport`): the transport as a recording class. Every write, `onMessage`, `disconnect` and `close` call goes onto one ordered trace. Write results come from a script given up front; once the script runs out, every write succeeds.
- `sending.dfy` (`Sending`): `sendFrame` and `sendMessage` as functions of the transport state.
- `assembler.dfy` (`Assembler`): the one-slot message assembler.
- `reception.dfy` (`Reception`): the Hybi receive path as a function of the connection state, with lemmas over whole frame sequences.
- `connections.dfy` (`Connections`): the `Connection` class and the factory method.

`Connection` is one class for both the Hixie and the Hybi connection, told apart by its `dialect` field. It has fields for the headers, the cookies and the open message. Each method is proved against the pure functions named in its `ensures` clauses. `GetCookies` returns the stored cookies; the constructor and `SetHeaders` rows state what they hold.

Modelling assumptions. The routines these stand for are not part of this model:

- `WebSocketOpcode::isControlFrame` is taken as "opcode >= 8", following section 5.5 of RFC 6455. So the reserved control opcodes count as control frames and are ignored.
- `WebSocketFrame::create(op)` is a final frame with opcode `op` and an empty payload.
- A message is finalised exactly when the frame appended last has its fin flag set.
- `WebSocketMessage76::create($data)` is modelled as the data itself.

Behaviour the model keeps as the code has it, even where a cleaner design would differ:

- A list-valued `Cookie` header leaves `_cookies` as it was. It is empty only because this happens at construction, not because it is reset.
- No Open, Closing or Closed state is kept. Frames that arrive after a Close are still processed.
- The connection does not buffer partial frames. `readFrame` decodes one frame from each chunk it is given.

The source writes the headers into `headers` but the handshake code reads `_headers`. The model keeps one header map that both use.

## Model

| member | source | states |
|---|---|---|
| Factory.StrPos | phpws/websocket.protocol.php:9 | the result is the offset of the first occurrence of the needle, or None exactly when it occurs nowhere |
| Factory.SelectRule | phpws/websocket.protocol.php:7-13 | Hixie iff `Sec-Websocket-Key1` is a header, whatever the data; otherwise Flash iff the data starts with `<policy-file-request/>` (an occurrence elsewhere does not count); otherwise Hybi; the choice is total |
| Connections.FromSocketData | phpws/websocket.protocol.php:4-14 | the dialect is the selection over the parsed headers and the data; a Hixie or Hybi connection is built with those headers and the caller's codecs, with the cookies of the `Cookie` header, and only its handshake has been written; Hixie keeps the raw data; no connection and no write for Flash |
| Handshake.HybiResponseLayout | phpws/websocket.protocol.php:113-118 | the Hybi response is the three status lines, `Sec-WebSocket-Accept: `, the token, then CRLF CRLF, with the token at a fixed offset |
| Handshake.HybiResponseInjective | phpws/websocket.protocol.php:113-118 | the accept token can be read back from the response: equal responses have equal tokens |
| Handshake.HixieResponseLayout | phpws/websocket.protocol.php:220-226 | the Hixie response is the same status lines, `Sec-WebSocket-Origin: ` and the origin, CRLF, `Sec-WebSocket-Location: ws://` then host and path, CRLF CRLF, then the digest, each at a fixed offset |
| Handshake.LastEightIsTrailer | phpws/websocket.protocol.php:208 | `substr($h, -8)` is the last min(8, length) characters of the client handshake |
| Connections.Connection.constructor | phpws/websocket.protocol.php:37-42 | the headers are stored; the cookies are `cookie_parse` of a string `Cookie` header and empty otherwise, including a list-valued one (initial value at line 35); the slot is empty; exactly the handshake response has been written |
| Connections.Connection.SetHeaders | phpws/websocket.protocol.php:66-76 | headers replaced; missing `Cookie` empties the cookies, a string one is parsed, a list-valued one leaves them unchanged |
| Connections.Connection.GetCookies | phpws/websocket.protocol.php:78-80 | the stored cookies; what they hold is stated by the constructor and `SetHeaders` rows |
| Connections.Connection.GetUriRequested | phpws/websocket.protocol.php:82-84 | the `GET` header's value, null when it is absent |
| Connections.Connection.GetAdminKey | phpws/websocket.protocol.php:86-88 | the `Admin-Key` header's value, null when it is absent |
| Connections.Connection.SendHandshakeResponse | phpws/websocket.protocol.php:108-122 | exactly one write: the Hybi response over the accept token of `Sec-Websocket-Key` (null if absent), or the Hixie response over origin, host, path and the digest of both keys and the trailer (lines 206-229) |
| Connections.Connection.SendFrame | phpws/websocket.protocol.php:48-51 | one write of the frame's encoding; the result is false exactly when that write failed |
| Connections.Connection.SendMessage | phpws/websocket.protocol.php:53-60 | the loop does what the sending function does: frames written in order up to and including the first failed write; true iff every write succeeded |
| Sending.SendAllStopsAtFirstFailure | phpws/websocket.protocol.php:53-60 | the writes are a prefix of the frames' encodings and nothing else; after a failed write nothing more is written; the result is true iff all writes succeed, and then every frame was written |
| Connections.Connection.SendString | phpws/websocket.protocol.php:183-187 | a Hybi string is sent as the frames of the message built from it |
| Connections.Connection.ReadFrame | phpws/websocket.protocol.php:127-133 | Hybi: the decoded frame goes to control processing if it is a control frame and to message processing otherwise; Hixie (lines 233-237): the data is handed to `onMessage` as one message and nothing else changes |
| Reception.ReceiveControl | phpws/websocket.protocol.php:130-131 | a control frame never changes the open message or the delivered messages; the only write is its reply |
| Reception.ReceiveData | phpws/websocket.protocol.php:132 | a data frame writes nothing, consumes no write result, never disconnects, and delivers exactly what the assembler dispatches |
| Connections.Connection.ProcessControlFrame | phpws/websocket.protocol.php:167-180 | the transport changes exactly as the control reply function says |
| Reception.ControlReplies | phpws/websocket.protocol.php:167-180 | Close: exactly one Close frame written, then a disconnect request; Ping: exactly one Pong and nothing else; any other opcode: nothing |
| Connections.Connection.ProcessMessageFrame | phpws/websocket.protocol.php:146-157 | the slot invariant is kept; the new slot and the delivery are those of one assembler step |
| Assembler.AcceptAppendsOrStarts | phpws/websocket.protocol.php:147-151 | an open, unfinalised message gets the frame appended whatever its opcode; otherwise a new message starts from the frame alone; finalised iff the frame is final |
| Assembler.StepPreservesSlot | phpws/websocket.protocol.php:153-156 | after a step the slot is empty or holds an open message; a message is dispatched iff the frame is final, it is complete, and the slot is then cleared; no frame is lost or reordered |
| Assembler.StepConserves | phpws/websocket.protocol.php:146-156 | a frame ends up in the slot or in the dispatched message, after the frames already there |
| Assembler.AssembleShape | phpws/websocket.protocol.php:146-157 | over any frame sequence: one complete message per final frame, and the slot invariant holds at the end |
| Assembler.AssembleConserves | phpws/websocket.protocol.php:146-157 | over any frame sequence: the dispatched messages' frames followed by the slot's frames are the frames received, in order |
| Assembler.TwoFragments | phpws/websocket.protocol.php:146-157 | frames fin=0 "ab" then fin=1 "cd" give one finalised message holding both, with payload "abcd", dispatched after the second |
| Reception.ReceiveAllAssembles | phpws/websocket.protocol.php:127-157 | control frames placed between fragments do not affect assembly: the slot and the deliveries are those of the data frames alone |
| Reception.ReceiveAllWrites | phpws/websocket.protocol.php:127-180 | the writes a received frame sequence causes are exactly the control replies, in order |
| Connections.Connection.Disconnect | phpws/websocket.protocol.php:189-194 | Hybi: one Close frame written, then `close()`; Hixie (lines 246-248): `close()` only, nothing written |

## Left out

- Connections.Connection.SendFrame: returns `true` on success where PHP falls off the end and returns NULL; `false` matches PHP's `FALSE`. The only caller, `sendMessage`, compares with `=== false`, so its behaviour is the same.

- The Flash connection (lines 91-103): its constructor calls a method on a socket that is never set, so it has no behaviour worth modelling. The factory returns no connection for a Flash peer and leaves the transport untouched.
- Hixie `sendString` (lines 240-244): it builds its message from an undefined variable.
- Hixie constructor order (lines 200-204): the source sends the handshake before it stores the client handshake. The model stores it first, so the trailer is taken from the real data.
- `getHeaders` (line 62-64): it returns `_headers`, which is never written. With the single header map it has nothing left to state.
- `getId` (lines 44-46): it casts the transport's resource handle, which is not part of this model.
- Logging (`WebSocketFunctions::say`, `echo`): it has no effect on the protocol state.
- Header tokenizing, cookie parsing, the Hybi accept token (SHA-1 and base64), the Hixie digest (MD5), frame encoding and decoding (section 5.2 of RFC 6455 defines the bit layout), and the message factories. Their bodies are not part of this model, so they are uninterpreted fields of `Codecs`, and a written frame is recorded as the frame itself.
- src/Devristo/Phpws/Client/Connector.php: client socket creation, the proxy tunnel, TLS and the event loop are transport plumbing.
- The transport is a recording stub. Its `write` results are scripted, and there is no real I/O, concurrency or buffering of partial frames.
