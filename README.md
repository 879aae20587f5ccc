# WiFi KeyControl PC app: a Dafny model of the protocol handler, input capture and connection manager

The PC app captures the local mouse and keyboard and forwards them to an
Android device over TCP. Three parts of it are modelled here:

- `ProtocolHandler` (pc-app/protocol.py) frames events and parses frames. A frame is
  `BB AA type payload crc_lo crc_hi`: the magic 0xAABB packed little-endian, a type byte
  whose bit 7 marks a zlib-compressed payload, the payload, and a CRC-16 of every
  preceding byte. The handler's sequence counter wraps at 65536.
  - The model has the encoder methods and the checksum loop as methods on a class
    `ProtocolHandler` (protocol_handler.dfy) that updates `packetSequence` in place.
  - The decoder `parse_packet` is a pure function in `ProtocolFrames`.
  - `batch_events` is a method whose loop is proved against the greedy grouping
    `Batching.Group`, with the counter values each batch packet is sent behind.
  - `Protocol` holds the ghost account of that loop.
- `InputCapture` (pc-app/input_capture.py) is the gate between the local devices and the
  event stream sent to the device. It is a class whose handlers update `active`,
  `controlActive` and the last pointer position, and append to the event and log streams.
  Its invariant says two things:
  - the device's view of who holds control (replayed from the control_switch events)
    always equals `controlActive`;
  - every pointer event was emitted while the device held control.
- `ConnectionManager` (pc-app/connection_manager.py) keeps the session with one device.
  - It is a class over the server and discovery sockets, the client socket, its address,
    `connected` and `deviceName`.
  - Its invariant says that a client is held exactly while connected, that the name is
    cleared when no client is held, and that the server sockets are open exactly while
    the server runs.
  - The handshake acceptance rule, `process_client_message`, `receive_json` and the
    discovery-response decoding are pure functions.

These are parameters of the model, because they are foreign code or I/O:
- zlib (`Compressor`, `Decompressor`), `json.dumps`/`json.loads` (`JsonSerializer`,
  `JsonParser`), `int()` on a string (`IntParser`) and UTF-8 decoding (`Utf8Decoder`).
  A `None` result stands for the exception the call raises.
- what a socket call does: whether a send succeeds, what a recv delivers, which sockets
  the setup creates;
- the monitor list, the clock and the 60 Hz rate limiter's verdict.

Qt signals are sequences the methods append to.

The code and its design description disagree in a few places; the model follows the code:
- The checksum is CRC-16/MODBUS (initial value 0xFFFF, reflected polynomial 0xA001;
  check value 0x4B37, proved in `Checksum.CheckValue`), not CRC-16/ARC.
- The magic goes on the wire as `BB AA`, not `AA BB`.
- `create_packet` looks event types up in a table keyed by upper-case names, so every
  event it does not raise on takes the JSON fallback. It raises when the timestamp does
  not convert with `int()` or when the type is a list or a dictionary, which cannot be
  looked up in a dict.
- `parse_packet` masks the type to 7 bits and so never reaches its 0xFF (JSON) branch.
- The click, keyboard, scroll and control-switch parsers unpack into fewer names than
  their formats have, so only mouse-movement and heartbeat frames decode.
- The reconnection policy and the dispatcher described for the device side have no
  counterpart in this PC code.

## Model

| member | source | states |
|---|---|---|
| `Checksum.CheckValue` | pc-app/protocol.py:226-236 | the checksum of "123456789" is 0x4B37, the CRC-16/MODBUS check value |
| `Checksum.Crc16Snoc` | pc-app/protocol.py:229-235 | one more input byte is one more XOR-then-eight-shift step on the running value |
| `Checksum.Crc16DetectsSingleByteError` | pc-app/protocol.py:226-236 | two equal-length inputs that differ in exactly one byte have different checksums |
| `Checksum.RoundsInjective` | pc-app/protocol.py:231-235 | the eight conditional shift-and-XOR rounds lose no information |
| `Bytes.LeValueOfLeBytes` | pc-app/protocol.py:219 | a value packed little-endian into n bytes is read back unchanged |
| `Bytes.LeBytesOfLeValue` | pc-app/protocol.py:243 | any n bytes are the little-endian packing of the value they are read as |
| `Bytes.U16Value` | pc-app/protocol.py:197 | the `<H` packing of a 16-bit value reads back as that value |
| `ProtocolFrames.MagicBytes` | pc-app/protocol.py:13 | HEADER_MAGIC packed as `<H` is the bytes BB AA |
| `ProtocolFrames.ChecksumFieldValue` | pc-app/protocol.py:218-219 | the trailing two bytes of a frame hold the checksum of everything before them |
| `ProtocolFrames.FrameLayout` | pc-app/protocol.py:214-219 | a frame starts with the magic, then the type byte, then the payload |
| `ProtocolFrames.FrameVerifies` | pc-app/protocol.py:238-245 | every frame `build_packet` produces passes `verify_checksum` |
| `ProtocolFrames.UnframeAcceptsExactlyFrames` | pc-app/protocol.py:247-267 | the length, magic and checksum checks accept a packet, with a given type byte and payload, exactly when it is the frame of that type byte and payload |
| `ProtocolFrames.UnframedIsFrame` | pc-app/protocol.py:247-267 | a packet the checks accept is the frame of the type byte and payload they extract |
| `ProtocolFrames.Payload` | pc-app/protocol.py:261-274 | a payload is extracted only from an accepted packet, with the type byte's compression bit cleared |
| `ProtocolFrames.ShortPayloadUncompressed` | pc-app/protocol.py:203-212 | a payload of at most 64 bytes is never compressed |
| `ProtocolFrames.PayloadOfFrame` | pc-app/protocol.py:261-274 | the decoder gets back the type and payload of an uncompressed frame |
| `ProtocolFrames.PayloadRecoversBuild` | pc-app/protocol.py:201-212 | when zlib's decompress undoes its compress, the decoder recovers the type and payload `build_packet` was given, whether or not the payload got compressed |
| `ProtocolFrames.Unpack` | pc-app/protocol.py:299 | `struct.unpack` succeeds exactly when the data has the format's size, giving one value per field |
| `ProtocolFrames.UnpackIntoSucceeds` | pc-app/protocol.py:310 | unpacking into a tuple of names succeeds exactly when the size matches and the format has as many fields as there are names |
| `ProtocolFrames.UnpackPack` | pc-app/protocol.py:183-187 | unpacking what `struct.pack` produced gives back the packed values |
| `ProtocolFrames.ParseRejectsMalformedFrames` | pc-app/protocol.py:249-259 | packets shorter than 5 bytes, with the wrong magic, or with a wrong checksum parse to None |
| `ProtocolFrames.DispatchSucceedsExactly` | pc-app/protocol.py:276-295 | a payload decodes only as a mouse movement of 18 bytes or a heartbeat of 10 bytes; every other type raises or is unknown |
| `ProtocolFrames.ParseSucceedsExactly` | pc-app/protocol.py:247-295 | `parse_packet` returns an event exactly when the frame is accepted and holds an 18-byte mouse movement or a 10-byte heartbeat |
| `ProtocolFrames.JsonAndBatchNeverDecode` | pc-app/protocol.py:262-293 | packets typed 0xFF or 0xFE never parse, since the masked type is at most 0x7F |
| `ProtocolFrames.MouseMovementDecodes` | pc-app/protocol.py:297-306 | a packed mouse-movement payload decodes to its sequence, x, y and timestamp |
| `ProtocolFrames.HeartbeatDecodes` | pc-app/protocol.py:373-380 | a packed heartbeat payload decodes to its sequence and timestamp |
| `ProtocolFrames.HeartbeatRoundTrip` | pc-app/protocol.py:178-189 | a heartbeat packet, compressed or not, parses back to its sequence and timestamp |
| `ProtocolFrames.VerifyChecksumDetectsSingleByteError` | pc-app/protocol.py:238-245 | changing any one byte of a packet that passes `verify_checksum` makes it fail |
| `ProtocolFrames.ParseRejectsSingleByteCorruption` | pc-app/protocol.py:247-259 | a frame with any one byte changed is rejected by the frame checks and parses to None |
| `Protocol.RouteAlwaysJson` | pc-app/protocol.py:49-58 | `create_packet` takes the JSON fallback exactly when the event's timestamp, if it has one, converts with `int()` and its type is neither a list nor a dictionary; otherwise it raises, and no other branch is ever taken |
| `Protocol.JsonPayloadFields` | pc-app/protocol.py:195-197 | the JSON payload starts with the sequence number and the data length, each as `<H` |
| `Protocol.JsonPayloadDecodes` | pc-app/protocol.py:382-386 | `parse_json_packet` applied to a JSON payload gives back the event serialised into it |
| `Protocol.JsonFrameNeverDecodes` | pc-app/protocol.py:191-199 | a JSON packet is built for any event whose serialisation fits in 16 bits, and `parse_packet` rejects it |
| `Protocol.BatchFrameNeverDecodes` | pc-app/protocol.py:411-424 | a batch packet is built for any serialisation that fits in 16 bits, and `parse_packet` rejects it |
| `Protocol.JsonFrameLength` | pc-app/protocol.py:191-224 | a JSON packet is at most 9 bytes longer than the serialised event, and exactly 9 longer without compression |
| `Protocol.ProgressAdmit` | pc-app/protocol.py:394-403 | one round of the batching loop keeps its invariant: the events so far are grouped as the greedy grouping admits them, each closed batch is the batch packet built behind the counter value it was sent at, and the counter has moved on by one per event and per batch |
| `Protocol.ProgressFinish` | pc-app/protocol.py:405-409 | after the last batch is flushed, the packets are exactly the batch packets of the greedy grouping, each behind its counter value, and the counter has moved on by the number of events plus the number of batches |
| `Protocol.EntriesDetermined` | pc-app/protocol.py:394-398 | the sizes `batch_events` groups by are fixed by the events: two records in which each event has the length of its own packet, built behind the counter value reached, are equal |
| `Protocol.ProgressStuck` | pc-app/protocol.py:405-407 | a failed final flush means a run of consecutive events whose serialised list is too long for a 16-bit length |
| `Protocol.ProgressRaises` | pc-app/protocol.py:394-403 | a failed round, stated on the loop state, is one where the greedy grouping of the events before it raises: on the event, or on the open batch it does not fit into |
| `Protocol.ProgressFlushRaises` | pc-app/protocol.py:405-407 | a failed flush, stated on the loop state, is the last open greedy batch being too long to pack |
| `Batching.GroupSnoc` | pc-app/protocol.py:394-403 | grouping one more event is one more step of the loop's close-or-extend rule |
| `Batching.CloseKeepsInvariant` | pc-app/protocol.py:396-400 | closing the open batch and starting a new one with the event keeps the grouping invariant |
| `Batching.ExtendKeepsInvariant` | pc-app/protocol.py:401-403 | adding the event to the open batch keeps the grouping invariant |
| `Batching.GroupInvariant` | pc-app/protocol.py:394-403 | the grouping of any event list satisfies the invariant: it covers the events in order, no batch is empty, any batch of two or more events fits the limit, and each closed batch was closed only because the next event did not fit |
| `Batching.GroupCovers` | pc-app/protocol.py:394-407 | the closed batches followed by the open one are the events, and there is no closed batch while the open one is empty |
| `Batching.BatchesProperties` | pc-app/protocol.py:388-409 | the batches sent concatenate to the events; there are none exactly when there are no events; none is empty; each batch of two or more events has total size within max_size; each batch plus the first event of the next exceeds max_size |
| `ProtocolHandling.ProtocolHandler.constructor` | pc-app/protocol.py:44-47 | the counter starts at 0, compression is enabled, max_packet_size is 1024 |
| `ProtocolHandling.ProtocolHandler.CalculateChecksum` | pc-app/protocol.py:226-236 | the loop computes the CRC-16 of the data; the empty input gives 0xFFFF |
| `ProtocolHandling.ProtocolHandler.ShiftEight` | pc-app/protocol.py:231-235 | the inner loop applies the shift-and-XOR round eight times |
| `ProtocolHandling.ProtocolHandler.BuildPacket` | pc-app/protocol.py:201-224 | the packet is the frame of the possibly compressed type and payload, and the counter moves on by one modulo 65536 |
| `ProtocolHandling.ProtocolHandler.CreateJsonPacket` | pc-app/protocol.py:191-199 | the packet is the JSON frame behind the current counter value, None when the length overflows `<H`; the counter moves on only for a packet built |
| `ProtocolHandling.ProtocolHandler.CreatePacket` | pc-app/protocol.py:49-73 | an event whose timestamp converts and whose type is not a list or dictionary yields its JSON packet behind the current counter value; every other event, and one whose serialisation overflows `<H`, raises (None); the counter moves on only for a packet built |
| `ProtocolHandling.ProtocolHandler.CreateHeartbeatPacket` | pc-app/protocol.py:178-189 | the packet is the heartbeat frame of the counter and timestamp, and the counter moves on by one |
| `ProtocolHandling.ProtocolHandler.CreateBatchPacket` | pc-app/protocol.py:411-424 | the packet is the uncompressed batch frame (type 0xFE) of the serialised list behind the current counter value |
| `ProtocolHandling.ProtocolHandler.EventPacketSize` | pc-app/protocol.py:395 | the size is the length of the very packet `create_packet` builds for the event behind the current counter value, and the counter moves on by one; it fails exactly when `create_packet` raises |
| `ProtocolHandling.ProtocolHandler.SendBatch` | pc-app/protocol.py:398 | a batch packet is the one the batch builder gives for the counter value it is sent behind |
| `ProtocolHandling.ProtocolHandler.MeasureEvent` | pc-app/protocol.py:395 | the event's entry carries the length of its own packet behind the counter value reached, and the counter moves on by one; failure exactly when `create_packet` raises |
| `ProtocolHandling.ProtocolHandler.CloseOrExtend` | pc-app/protocol.py:396-403 | the loop state becomes the one the close-or-extend rule gives, a closed batch being sent behind the current counter value, which moves on by one per batch sent; failure only when the event does not fit, so that the open batch is closed, and that batch serialises too long for `<H` |
| `ProtocolHandling.ProtocolHandler.AddEvent` | pc-app/protocol.py:394-403 | one loop round: the event's entry has the length of its own packet, the loop state is the one the close-or-extend rule gives, and the counter is one on per packet built; failure only when `create_packet` raises on the event, or its packet does not fit and the open batch it closes is too long to pack |
| `ProtocolHandling.ProtocolHandler.FlushBatches` | pc-app/protocol.py:405-409 | the open batch, if any, is sent as the last packet |
| `ProtocolHandling.ProtocolHandler.BatchStep` | pc-app/protocol.py:394-403 | one loop round keeps the loop invariant; on failure the greedy loop state reached raises in this round, on the event or on the open batch it closes (`RaisesAt`) |
| `ProtocolHandling.ProtocolHandler.AddEvents` | pc-app/protocol.py:394-403 | the loop leaves the state of the greedy grouping of all the events, sized by their own packets; on failure the ghost record holds the events before the round that raised, and the greedy loop state reached does raise there (`RaisesAt`) |
| `ProtocolHandling.ProtocolHandler.FinishBatches` | pc-app/protocol.py:405-409 | the packets returned are the batch packets of the greedy grouping; failure only when the open greedy batch is too long to pack at the flush |
| `ProtocolHandling.ProtocolHandler.BatchEvents` | pc-app/protocol.py:388-409 | each event is recorded with the length of its own packet behind the counter value it reached; the result is one batch packet per greedy batch of those lengths, each behind the counter value it was sent at, and the counter moves on by events plus batches; failure only in a round where the greedy loop state reached raises (`RaisesAt`): `create_packet` raises on the event, or the event does not fit and the open batch it closes serialises too long for a 16-bit length, or the last open batch does at the flush |
| `Text.WithoutAbsent` | pc-app/input_capture.py:209 | `replace(pat, '')` leaves a string in which pat does not occur unchanged |
| `Text.WithoutPrefix` | pc-app/input_capture.py:209 | `str(Key.x).replace('Key.', '')` gives back the name x |
| `Text.Lower` | pc-app/input_capture.py:286 | lower-casing keeps the length and maps each character through the ASCII case mapping |
| `Text.LowerIdempotent` | pc-app/input_capture.py:286 | lower-casing twice is lower-casing once |
| `Text.StripStart` | pc-app/connection_manager.py:311 | the leading white space is removed: the result is a suffix of the input, every character dropped is white space, and the result does not start with white space |
| `Text.StripEnd` | pc-app/connection_manager.py:311 | the trailing white space is removed: the result is a prefix of the input, every character dropped is white space, and the result does not end with white space |
| `Text.Strip` | pc-app/connection_manager.py:311 | the stripped text is the input without its leading and trailing ASCII white space (including the separators 0x1C to 0x1F): it is a segment of the input with only white space before and after it, it neither starts nor ends with white space, and it is empty exactly when the input is all white space |
| `InputCapturing.EngagedSnoc` | pc-app/input_capture.py:136-149 | a control_switch event hands control to the device unless its edge is return_to_pc, and any other event leaves control where it was |
| `InputCapturing.GatedSnoc` | pc-app/input_capture.py:152-159 | emitting a pointer event only while the device holds control keeps the stream gated |
| `InputCapturing.GetSpecialKeyCode` | pc-app/input_capture.py:261-286 | the code is nonzero exactly when the lower-cased name is in the table, and then it is the table's entry |
| `InputCapturing.SpecialKeyCodeIgnoresCase` | pc-app/input_capture.py:286 | a name and its lower-case form get the same code |
| `InputCapturing.SpecialKeyFields` | pc-app/input_capture.py:207-210 | a special key `Key.name` is reported as name with the table's code for it |
| `InputCapturing.InputCapture.constructor` | pc-app/input_capture.py:14-36 | capture inactive, PC in control, no events; screen from the first monitor, or 1920x1080 when there is none or the query fails |
| `InputCapturing.InputCapture.UpdateScreenDimensions` | pc-app/input_capture.py:38-50 | the first monitor's size is taken and logged; an empty list changes nothing; a failed query is logged and keeps the size |
| `InputCapturing.InputCapture.StartCapture` | pc-app/input_capture.py:52-77 | a second start changes nothing; otherwise capture and both listeners become active with the two log lines |
| `InputCapturing.InputCapture.StopCapture` | pc-app/input_capture.py:79-96 | stopping when inactive changes nothing; otherwise capture and both listeners stop with the two log lines |
| `InputCapturing.InputCapture.CheckScreenEdgeSwitch` | pc-app/input_capture.py:103-118 | an edge is reported exactly when the point is within the threshold of one; it is the first of left, right, top, bottom that the point lies on |
| `InputCapturing.InputCapture.OnMouseMove` | pc-app/input_capture.py:120-159 | inactive or throttled: nothing changes; an edge hit while the PC holds control hands control over with one control_switch naming the edge and no mouse_move; otherwise a mouse_move is emitted exactly when the device holds control |
| `InputCapturing.InputCapture.OnMouseClick` | pc-app/input_capture.py:161-178 | a mouse_click with the button name stripped of "Button." is emitted exactly when capture is active and the device holds control |
| `InputCapturing.InputCapture.OnMouseScroll` | pc-app/input_capture.py:180-194 | a mouse_scroll is emitted exactly when capture is active and the device holds control |
| `InputCapturing.InputCapture.OnKeyPress` | pc-app/input_capture.py:196-229 | while active, a key_press with the key's name and code is emitted whoever holds control, and control never changes; inactive, nothing changes |
| `InputCapturing.InputCapture.OnKeyRelease` | pc-app/input_capture.py:231-259 | while active, a key_release with the key's name and code is emitted whoever holds control; inactive, nothing changes |
| `InputCapturing.InputCapture.ToggleControl` | pc-app/input_capture.py:294-315 | control flips; return_to_pc is sent when the PC takes it back and hotkey when the device gets it |
| `InputCapturing.InputCapture.ReturnControlToPc` | pc-app/input_capture.py:317-328 | afterwards the PC holds control; return_to_pc is sent only if the device held it, so a second call changes nothing |
| `Connection.ReceiveJson` | pc-app/connection_manager.py:307-320 | a response is returned exactly when bytes arrive, decode, strip to something non-blank and parse; it is their parse; a blank message gives None silently, and each failure logs its own line: a time-out `TimeoutWaitingForResponse`, a failed receive or bytes that are not UTF-8 `ErrorReceivingJson`, and unparseable text `InvalidJsonReceived` |
| `Connection.StatusName` | pc-app/connection_manager.py:159 | the status signal carries a string device name as it is and None as the empty string; any other value makes the emit raise |
| `Connection.HandshakeVerdict` | pc-app/connection_manager.py:143-145 | a response is accepted exactly when it is an object whose type is handshake_response, under its device_name or "Unknown Device"; a truthy non-object crashes the handler |
| `Connection.ProcessClientMessage` | pc-app/connection_manager.py:199-215 | non-UTF-8 data is an error, unparseable JSON is binary data of the message's length, JSON that is not an object is an error (`.get` raises), a status object logs its message ("" when absent), a control_return object is reported, and nothing is logged exactly for objects of any other type than status and control_return |
| `Connection.DecodeDiscoveryResponse` | pc-app/connection_manager.py:239-262 | only datagrams starting with WIFIKEY_RESPONSE are considered; a discovered device's ip is the sender's host; unparseable JSON gives the fallback entry; non-UTF-8 data or a non-object ends the listener |
| `Connection.DiscoveryResponseRoundTrip` | pc-app/connection_manager.py:240-246 | the prefix followed by a JSON object reports that object's fields with ip set to the sender's host |
| `Connection.OwnBroadcastIgnored` | pc-app/connection_manager.py:36-37 | the manager's own discovery broadcast is not taken for a response |
| `Connection.ConnectionManager.constructor` | pc-app/connection_manager.py:18-41 | stopped, not connected, empty device name, ports 12346 and 12345 |
| `Connection.ConnectionManager.StartServer` | pc-app/connection_manager.py:43-87 | a running server is untouched and reports success; otherwise the ports are recorded and either both sockets are bound and the server runs, or the sockets created are closed and it reports failure while still stopped; the session is untouched |
| `Connection.ConnectionManager.StopServer` | pc-app/connection_manager.py:89-99 | a stopped server is untouched; otherwise the server stops, the client is disconnected and the server and discovery sockets are closed |
| `Connection.ConnectionManager.Cleanup` | pc-app/connection_manager.py:101-112 | the server and discovery sockets held are closed and cleared |
| `Connection.ConnectionManager.DisconnectClient` | pc-app/connection_manager.py:322-339 | the client socket, if any, is closed; connected, client socket, address and name are reset; the disconnection is reported only when the old name was truthy, so a second call changes nothing |
| `Connection.ConnectionManager.HandleClientConnection` | pc-app/connection_manager.py:131-178 | the handshake request is sent; an accepted client becomes the only one held, the previous one being disconnected first; when its device name is neither a string nor None the status emit raises after the client is recorded, so its socket is closed and the error logged while the session still holds it; a rejected or crashing one is closed and the session is as before |
| `Connection.ConnectionManager.Settle` | pc-app/connection_manager.py:144-178 | the session after the handshake verdict, as in HandleClientConnection |
| `Connection.ConnectionManager.SendPacket` | pc-app/connection_manager.py:283-295 | nothing is sent without a connected client; a successful send reports true, records the packet on the client socket and leaves the session, the log, the status signals and the closed sockets as they were; a failed one reports false, is logged and disconnects the client |
| `Connection.ConnectionManager.HeartbeatStep` | pc-app/connection_manager.py:341-358 | while connected a heartbeat is sent to the client, and nothing else changes; a failed send logs the error and disconnects it; while not connected nothing happens |
| `Connection.ConnectionManager.DiscoveryStep` | pc-app/connection_manager.py:235-262 | a discovered device is reported and logged; an error is logged while the server runs and stops the listener |

## Left out

- Sockets, threads, sleeps and the lock. Socket calls are parameters. The accept, client-data, broadcast and discovery loops are modelled one step at a time (HandleClientConnection, HeartbeatStep, DiscoveryStep), or not at all: the client-data loop of `handle_client_data` and the broadcast loop only repeat modelled steps or do I/O.
- `send_packet` holds the non-reentrant lock when it calls `disconnect_client`, which takes the same lock again, so in the program a failed send deadlocks. SendPacket models the failure path as if it ran sequentially.
- An exception while starting the server threads, after `server_running` is set (pc-app/connection_manager.py:70-80), is not modelled: the sockets are then closed while the server still counts as running. Exceptions raised by `close()` are not modelled either.
- Wall-clock time and the 60 Hz rate limit: timestamps are integer parameters, and the limiter's decision is a boolean parameter. Python floats are not modelled; pointer coordinates arrive as integers, so `int(x)` is the identity here.
- pynput listeners, screeninfo, zlib, `json.dumps`/`json.loads` and UTF-8 are parameters. In `on_key_press`/`on_key_release`, a key is either one with a single character or any other key given by its `str()`. An empty or multi-character `key.char`, and the AttributeError branch, are not modelled.
- The hotkey branch of `on_key_press` is left out, because `is_control_toggle_hotkey` answers False for every key and the branch cannot be taken.
- `lower()` and `strip()` cover ASCII only: the non-ASCII Unicode white space and case mappings are not modelled.
- The status signal is taken to convert a None device name to the empty string, as PyQt does for a `str` argument.
- The type-specific encoders `create_mouse_movement_packet` … `create_control_switch_packet` (pc-app/protocol.py:75-176) are not modelled. `create_packet` never reaches them, and their `struct.pack` calls do not match their formats.
- `is_active`, `is_server_running`, `is_connected`, `get_status` and `discover_devices` only read fields or start threads.
- BatchEvents: on failure (`create_packet` raising on an event, or an event or a batch too long for a 16-bit length, where `struct.pack` raises) the contract does not state how far the counter has moved.
