/** `ConnectionManager` (pc-app/connection_manager.py): the PC side of the
    session with one Android device. Sockets, threads, sleeps and the lock
    are outside the model: a socket is an identity, what a socket call
    returns (a send that succeeds or raises, the bytes a recv delivers, the
    sockets a setup manages to create) arrives as a parameter, and the
    background loops are modelled one step at a time. The Qt signals are
    the sequences `log`, `statusChanges` and `discovered`; `sent` and
    `closed` record what was written to and closed on which socket. */
module Connection {
  import opened Wrappers
  import opened JsonValues
  import opened Text

  datatype Socket = Socket(id: nat)

  /** A peer address `(host, port)`. */
  datatype Address = Address(host: string, port: int)

  /** What was sent on a socket. Timestamps are `time.time()` as the model
      receives it. */
  datatype Outgoing =
    | HandshakeRequest(timestamp: int)  // {'type': 'handshake', 'version': '1.0', 'timestamp': ...}
    | HeartbeatMessage(timestamp: int)  // {'type': 'heartbeat', 'timestamp': ...}
    | PacketBytes(bytes: seq<bv8>)

  datatype Sent = Sent(to: Socket, message: Outgoing)

  /** The messages of `log_message`. */
  datatype LogEntry =
    | ServerStarted(serverPort: int)
    | DiscoveryListening(discoveryPort: int)
    | FailedToStartServer
    | StoppingServer
    | ConnectedTo(deviceName: Json, address: Address)
    | InvalidHandshake(address: Address)
    | ErrorHandlingClientConnection
    | ClientStatus(message: Json)
    | ControlReturnedByClient
    | ReceivedBinaryData(length: nat)
    | ErrorProcessingClientMessage
    | DeviceDiscovered(name: Json, host: string)
    | DeviceDiscoveredAt(host: string)
    | ErrorListeningForDiscovery
    | ErrorSendingPacket
    | ErrorSendingJson
    | TimeoutWaitingForResponse
    | InvalidJsonReceived
    | ErrorReceivingJson
    | DisconnectedFrom(deviceName: Json)

  /** What one `recv` on a socket does: deliver bytes, time out, or raise. */
  datatype Incoming = Data(bytes: seq<bv8>) | TimedOut | RecvFailed

  /** What `start_server`'s socket setup achieves: both sockets bound, or
      an exception after creating the sockets given. */
  datatype Setup =
    | Bound(server: Socket, discovery: Socket)
    | SetupFailed(createdServer: Option<Socket>, createdDiscovery: Option<Socket>)

  const DefaultServerPort := 12346
  const DefaultDiscoveryPort := 12345

  /** `DISCOVERY_MESSAGE`, b"WIFIKEY_DISCOVERY". */
  const DiscoveryMessage: seq<bv8> :=
    [0x57, 0x49, 0x46, 0x49, 0x4B, 0x45, 0x59, 0x5F, 0x44, 0x49, 0x53, 0x43, 0x4F, 0x56, 0x45, 0x52, 0x59]
  /** `DISCOVERY_RESPONSE`, b"WIFIKEY_RESPONSE". */
  const ResponsePrefix: seq<bv8> :=
    [0x57, 0x49, 0x46, 0x49, 0x4B, 0x45, 0x59, 0x5F, 0x52, 0x45, 0x53, 0x50, 0x4F, 0x4E, 0x53, 0x45]

  predicate StartsWith(data: seq<bv8>, prefix: seq<bv8>)
  {
    |prefix| <= |data| && data[..|prefix|] == prefix
  }

  /** The socket an optional field holds, as a list of zero or one. */
  function Held(s: Option<Socket>): seq<Socket>
  {
    if s.Some? then [s.value] else []
  }

  /** What `disconnect_client` reports for the device name it clears: one
      log line and one status change when the name is truthy, nothing
      otherwise. */
  function Farewell(name: Json): seq<LogEntry>
  {
    if Truthy(name) then [DisconnectedFrom(name)] else []
  }

  function StatusOnDisconnect(name: Json): seq<(bool, Json)>
  {
    if Truthy(name) then [(false, JString(""))] else []
  }

  /** The outcome of `receive_json`: the response, and what was logged. */
  datatype Received = Received(response: Option<Json>, log: seq<LogEntry>)

  /** `receive_json`: the bytes received are decoded as UTF-8, stripped
      and parsed. A blank message gives None silently; a time-out, a
      parse error and any other failure (a recv that raises, bytes that
      are not UTF-8) give None with a log line naming the cause. */
  function ReceiveJson(incoming: Incoming, decode: Utf8Decoder, loads: JsonParser): (r: Received)
    ensures r.response.Some? <==>
              incoming.Data? && decode(incoming.bytes).Some? && Strip(decode(incoming.bytes).value) != []
              && loads(Strip(decode(incoming.bytes).value)).Some?
    ensures r.response.Some? ==> r.response == loads(Strip(decode(incoming.bytes).value)) && r.log == []
    ensures r.response.None? && r.log == [] <==>
              incoming.Data? && decode(incoming.bytes).Some? && Strip(decode(incoming.bytes).value) == []
    ensures incoming.TimedOut? ==> r == Received(None, [TimeoutWaitingForResponse])
    ensures incoming.RecvFailed? ==> r == Received(None, [ErrorReceivingJson])
    ensures incoming.Data? && decode(incoming.bytes).None? ==> r == Received(None, [ErrorReceivingJson])
    ensures (incoming.Data? && decode(incoming.bytes).Some? && Strip(decode(incoming.bytes).value) != []
             && loads(Strip(decode(incoming.bytes).value)).None?) ==> r == Received(None, [InvalidJsonReceived])
    ensures |r.log| <= 1
  {
    match incoming
    case TimedOut => Received(None, [TimeoutWaitingForResponse])
    case RecvFailed => Received(None, [ErrorReceivingJson])
    case Data(bytes) =>
      match decode(bytes)
      case None => Received(None, [ErrorReceivingJson])
      case Some(text) =>
        var data := Strip(text);
        if data == [] then Received(None, [])
        else
          match loads(data)
          case None => Received(None, [InvalidJsonReceived])
          case Some(j) => Received(Some(j), [])
  }

  /** The string `status_changed.emit(True, device_name)` delivers for a
      device name: a string as it is, and None as the empty string PyQt
      converts it to. For any other value the signal's `str` argument
      makes the emit raise TypeError, and the result is None. */
  function StatusName(name: Json): (r: Option<Json>)
    ensures r.Some? <==> name.JString? || name.JNull?
    ensures r.Some? ==> r.value == (if name.JString? then name else JString(""))
  {
    match name
    case JString(_) => Some(name)
    case JNull => Some(JString(""))
    case _ => None
  }

  /** What `handle_client_connection` makes of the handshake response. */
  datatype Verdict =
    | Accept(deviceName: Json)  // a handshake_response
    | Reject                    // anything else the checks turn down
    | Crash                     // a truthy non-object: `.get` raises

  /** The acceptance rule: the response must be an object whose 'type' is
      "handshake_response"; its 'device_name' defaults to "Unknown
      Device". A falsy response is rejected before it is looked at, and a
      truthy one that is not an object makes `response.get` raise. */
  function HandshakeVerdict(response: Option<Json>): (v: Verdict)
    ensures v.Accept? <==>
              response.Some? && response.value.JObject?
              && "type" in response.value.fields && response.value.fields["type"] == JString("handshake_response")
    ensures v.Accept? ==> v.deviceName == Get(response.value.fields, "device_name", JString("Unknown Device"))
    ensures v.Crash? <==> response.Some? && Truthy(response.value) && !response.value.JObject?
  {
    match response
    case None => Reject
    case Some(j) =>
      if !Truthy(j) then Reject
      else if !j.JObject? then Crash
      else if Get(j.fields, "type", JNull) == JString("handshake_response") then
        Accept(Get(j.fields, "device_name", JString("Unknown Device")))
      else Reject
  }

  /** `process_client_message`: what one message from the client logs. A
      message that is not UTF-8, or parses to something other than an
      object, is an error; one that does not parse is binary data; a
      'status' object logs its 'message', a 'control_return' object is
      reported, and any other object is ignored. */
  function ProcessClientMessage(data: seq<bv8>, decode: Utf8Decoder, loads: JsonParser): (r: seq<LogEntry>)
    ensures |r| <= 1
    ensures decode(data).None? ==> r == [ErrorProcessingClientMessage]
    ensures decode(data).Some? && loads(decode(data).value).None? ==> r == [ReceivedBinaryData(|data|)]
    ensures r == [] <==>
              decode(data).Some? && loads(decode(data).value).Some? && loads(decode(data).value).value.JObject?
              && Get(loads(decode(data).value).value.fields, "type", JNull) !in {JString("status"), JString("control_return")}
    ensures r == [ControlReturnedByClient] <==>
              decode(data).Some? && loads(decode(data).value).Some? && loads(decode(data).value).value.JObject?
              && Get(loads(decode(data).value).value.fields, "type", JNull) == JString("control_return")
    ensures decode(data).Some? && loads(decode(data).value).Some? && loads(decode(data).value).value.JObject?
            && Get(loads(decode(data).value).value.fields, "type", JNull) == JString("status") ==>
              r == [ClientStatus(Get(loads(decode(data).value).value.fields, "message", JString("")))]
    ensures decode(data).Some? && loads(decode(data).value).Some? && !loads(decode(data).value).value.JObject? ==>
              r == [ErrorProcessingClientMessage]
  {
    match decode(data)
    case None => [ErrorProcessingClientMessage]
    case Some(text) =>
      match loads(text)
      case None => [ReceivedBinaryData(|data|)]
      case Some(message) =>
        if !message.JObject? then [ErrorProcessingClientMessage]
        else
          var kind := Get(message.fields, "type", JNull);
          if kind == JString("status") then [ClientStatus(Get(message.fields, "message", JString("")))]
          else if kind == JString("control_return") then [ControlReturnedByClient]
          else []
  }

  /** What the discovery listener does with one datagram: ignore it, report
      a device (its info and the log line), or stop listening because the
      handling raised. */
  datatype DiscoveryOutcome =
    | Ignored
    | Discovered(info: map<string, Json>, entry: LogEntry)
    | ListenerStopped

  /** The device info `listen_for_discovery_responses` reports when the
      response carries no parseable JSON. */
  function FallbackInfo(host: string, serverPort: int): map<string, Json>
  {
    map["name" := JString("Android Device (" + host + ")"), "ip" := JString(host),
        "port" := JNumber(serverPort as real)]
  }

  /** The decoding step of `listen_for_discovery_responses` for a datagram
      from host. Only datagrams starting with b"WIFIKEY_RESPONSE" are
      considered; the rest is parsed as a JSON object whose 'ip' is
      overwritten with the sender's host. Unparseable JSON falls back to a
      generic entry; bytes that are not UTF-8, or JSON that is not an
      object, raise out of the inner handler and end the listener. */
  function DecodeDiscoveryResponse(data: seq<bv8>, host: string, serverPort: int,
                                   decode: Utf8Decoder, loads: JsonParser): (r: DiscoveryOutcome)
    ensures r.Ignored? <==> !StartsWith(data, ResponsePrefix)
    ensures r.Discovered? ==> "ip" in r.info && r.info["ip"] == JString(host)
    ensures r.ListenerStopped? <==>
              StartsWith(data, ResponsePrefix)
              && (decode(data[|ResponsePrefix|..]).None?
                  || (loads(decode(data[|ResponsePrefix|..]).value).Some?
                      && !loads(decode(data[|ResponsePrefix|..]).value).value.JObject?))
    ensures r.Discovered? && loads(decode(data[|ResponsePrefix|..]).value).None? ==>
              r.info == FallbackInfo(host, serverPort) && r.entry == DeviceDiscoveredAt(host)
  {
    if !StartsWith(data, ResponsePrefix) then Ignored
    else
      match decode(data[|ResponsePrefix|..])
      case None => ListenerStopped
      case Some(text) =>
        match loads(text)
        case None => Discovered(FallbackInfo(host, serverPort), DeviceDiscoveredAt(host))
        case Some(j) =>
          if !j.JObject? then ListenerStopped
          else
            var info := j.fields["ip" := JString(host)];
            Discovered(info, DeviceDiscovered(Get(info, "name", JString("Unknown")), host))
  }

  /** A response built as the prefix followed by the UTF-8 of a JSON object
      is reported with that object's fields, the sender's host as 'ip'. */
  lemma DiscoveryResponseRoundTrip(body: seq<bv8>, text: string, fields: map<string, Json>, host: string,
                                   serverPort: int, decode: Utf8Decoder, loads: JsonParser)
    requires decode(body) == Some(text) && loads(text) == Some(JObject(fields))
    ensures DecodeDiscoveryResponse(ResponsePrefix + body, host, serverPort, decode, loads)
            == Discovered(fields["ip" := JString(host)],
                          DeviceDiscovered(Get(fields["ip" := JString(host)], "name", JString("Unknown")), host))
  {
    var data := ResponsePrefix + body;
    assert data[..|ResponsePrefix|] == ResponsePrefix;
    assert data[|ResponsePrefix|..] == body;
  }

  /** The manager's own discovery broadcast, heard back by its listener, is
      ignored: b"WIFIKEY_DISCOVERY" does not start with b"WIFIKEY_RESPONSE". */
  lemma OwnBroadcastIgnored(host: string, serverPort: int, decode: Utf8Decoder, loads: JsonParser)
    ensures DecodeDiscoveryResponse(DiscoveryMessage, host, serverPort, decode, loads) == Ignored
  {
    assert DiscoveryMessage[8] != ResponsePrefix[8];
  }

  class ConnectionManager {
    var serverSocket: Option<Socket>
    var discoverySocket: Option<Socket>
    var clientSocket: Option<Socket>
    var clientAddress: Option<Address>
    var serverRunning: bool
    var connected: bool
    var deviceName: Json
    var serverPort: int
    var discoveryPort: int
    var log: seq<LogEntry>
    var statusChanges: seq<(bool, Json)>
    var discovered: seq<map<string, Json>>
    var sent: seq<Sent>
    var closed: seq<Socket>

    /** At most one client is held: exactly while connected, with its
        address; when no client is held the device name is cleared. */
    ghost predicate SessionValid()
      reads this
    {
      && connected == clientSocket.Some? && connected == clientAddress.Some?
      && (!connected ==> deviceName == JString(""))
    }

    /** The server and discovery sockets are open exactly while the server
        runs. */
    ghost predicate ServerValid()
      reads this
    {
      serverRunning == serverSocket.Some? && serverRunning == discoverySocket.Some?
    }

    ghost predicate Valid()
      reads this
    {
      SessionValid() && ServerValid()
    }

    /** `__init__`. */
    constructor ()
      ensures Valid()
      ensures !serverRunning && !connected && deviceName == JString("")
      ensures serverPort == DefaultServerPort && discoveryPort == DefaultDiscoveryPort
      ensures log == [] && statusChanges == [] && discovered == [] && sent == [] && closed == []
    {
      serverSocket, discoverySocket, clientSocket, clientAddress := None, None, None, None;
      serverRunning, connected, deviceName := false, false, JString("");
      serverPort, discoveryPort := DefaultServerPort, DefaultDiscoveryPort;
      log, statusChanges, discovered, sent, closed := [], [], [], [], [];
    }

    /** `start_server`: a running server is left as it is and reports
        success. Otherwise the ports are recorded, and either both sockets
        are bound and the server runs, or the sockets created before the
        failure are closed again and the server stays stopped. The client
        session is untouched. */
    method StartServer(newServerPort: int, newDiscoveryPort: int, setup: Setup) returns (ok: bool)
      requires Valid()
      modifies this`serverPort, this`discoveryPort, this`serverSocket, this`discoverySocket,
               this`serverRunning, this`log, this`closed
      ensures Valid()
      ensures old(serverRunning) ==> ok && unchanged(this)
      ensures !old(serverRunning) ==> serverPort == newServerPort && discoveryPort == newDiscoveryPort
      ensures !old(serverRunning) && setup.Bound? ==>
                && ok && serverRunning
                && serverSocket == Some(setup.server) && discoverySocket == Some(setup.discovery)
                && log == old(log) + [ServerStarted(newServerPort), DiscoveryListening(newDiscoveryPort)]
                && closed == old(closed)
      ensures !old(serverRunning) && setup.SetupFailed? ==>
                && !ok && !serverRunning
                && log == old(log) + [FailedToStartServer]
                && closed == old(closed) + Held(setup.createdServer) + Held(setup.createdDiscovery)
    {
      if serverRunning {
        return true;
      }
      serverPort, discoveryPort := newServerPort, newDiscoveryPort;
      match setup
      case Bound(server, discovery) =>
        serverSocket, discoverySocket := Some(server), Some(discovery);
        serverRunning := true;
        log := log + [ServerStarted(serverPort), DiscoveryListening(discoveryPort)];
        ok := true;
      case SetupFailed(createdServer, createdDiscovery) =>
        serverSocket, discoverySocket := createdServer, createdDiscovery;
        log := log + [FailedToStartServer];
        Cleanup();
        ok := false;
    }

    /** `stop_server`: a stopped server is left as it is. Otherwise the
        server stops, the client is disconnected and both sockets are
        closed. */
    method StopServer()
      requires Valid()
      modifies this`serverRunning, this`serverSocket, this`discoverySocket, this`clientSocket,
               this`clientAddress, this`connected, this`deviceName, this`log, this`statusChanges, this`closed
      ensures Valid()
      ensures !old(serverRunning) ==> unchanged(this)
      ensures old(serverRunning) ==>
                && !serverRunning && !connected && clientSocket.None? && deviceName == JString("")
                && log == old(log) + [StoppingServer] + Farewell(old(deviceName))
                && statusChanges == old(statusChanges) + StatusOnDisconnect(old(deviceName))
                && closed == old(closed) + Held(old(clientSocket)) + Held(old(serverSocket)) + Held(old(discoverySocket))
    {
      if !serverRunning {
        return;
      }
      serverRunning := false;
      log := log + [StoppingServer];
      DisconnectClient();
      Cleanup();
    }

    /** `cleanup`: the server and discovery sockets are closed and
        forgotten. */
    method Cleanup()
      modifies this`serverSocket, this`discoverySocket, this`closed
      ensures serverSocket.None? && discoverySocket.None?
      ensures closed == old(closed) + Held(old(serverSocket)) + Held(old(discoverySocket))
    {
      if serverSocket.Some? {
        closed := closed + [serverSocket.value];
        serverSocket := None;
      }
      if discoverySocket.Some? {
        closed := closed + [discoverySocket.value];
        discoverySocket := None;
      }
    }

    /** `disconnect_client`: the client socket, if any, is closed and every
        session field is reset. The device is reported gone only when the
        cleared name was truthy, so a second call reports nothing. */
    method DisconnectClient()
      requires SessionValid()
      modifies this`clientSocket, this`clientAddress, this`connected, this`deviceName,
               this`log, this`statusChanges, this`closed
      ensures SessionValid()
      ensures !connected && clientSocket.None? && clientAddress.None? && deviceName == JString("")
      ensures closed == old(closed) + Held(old(clientSocket))
      ensures log == old(log) + Farewell(old(deviceName))
      ensures statusChanges == old(statusChanges) + StatusOnDisconnect(old(deviceName))
      ensures !old(connected) ==> unchanged(this)
    {
      if clientSocket.Some? {
        closed := closed + [clientSocket.value];
        clientSocket := None;
      }
      connected := false;
      var oldDeviceName := deviceName;
      deviceName := JString("");
      clientAddress := None;
      if Truthy(oldDeviceName) {
        log := log + [DisconnectedFrom(oldDeviceName)];
        statusChanges := statusChanges + [(false, JString(""))];
      }
    }

    /** `handle_client_connection` for a socket accepted from address at
        time now. The handshake request is sent (handshakeSent says whether
        the send succeeded); incoming is what the response recv delivers.
        An accepted client replaces the one held, which is disconnected
        first; a rejected one, or one whose response crashes the handler,
        is closed and leaves the session as it was. */
    method HandleClientConnection(sock: Socket, address: Address, now: int, handshakeSent: bool,
                                  incoming: Incoming, decode: Utf8Decoder, loads: JsonParser)
      requires Valid()
      modifies this`clientSocket, this`clientAddress, this`connected, this`deviceName,
               this`log, this`statusChanges, this`closed, this`sent
      ensures Valid()
      ensures sent == old(sent) + (if handshakeSent then [Sent(sock, HandshakeRequest(now))] else [])
      ensures
        var received := ReceiveJson(incoming, decode, loads);
        var head := old(log) + (if handshakeSent then [] else [ErrorSendingJson]) + received.log;
        Settled(HandshakeVerdict(received.response), sock, address, head, old(connected), old(clientSocket),
                old(clientAddress), old(deviceName), old(closed), old(statusChanges))
    {
      if handshakeSent {
        sent := sent + [Sent(sock, HandshakeRequest(now))];
      } else {
        log := log + [ErrorSendingJson];
      }
      var received := ReceiveJson(incoming, decode, loads);
      log := log + received.log;
      ghost var head := log;
      assert head == old(log) + (if handshakeSent then [] else [ErrorSendingJson]) + received.log;
      Settle(HandshakeVerdict(received.response), sock, address);
    }

    /** The session after the verdict on a handshake: an accepted client is
        the one held, after the previous one was disconnected, and its
        status is signalled; when its name is neither a string nor None the
        signal raises, the error is logged and the new socket is closed
        although the session still holds it. Otherwise the new socket is
        closed and the session is as it was. head is the
        log up to the verdict; the rest are the fields before it. (Stated as
        one fact so that callers carry it whole rather than clause by
        clause.) */
    ghost predicate Settled(verdict: Verdict, sock: Socket, address: Address, head: seq<LogEntry>,
                            connected0: bool, clientSocket0: Option<Socket>, clientAddress0: Option<Address>,
                            deviceName0: Json, closed0: seq<Socket>, statusChanges0: seq<(bool, Json)>)
      reads this
    {
      // Comparing with true keeps Dafny from splitting the body into one goal per conjunct wherever
      // the predicate is to be shown; a proof that needs a conjunct asserts the Facts predicate.
      SettledFacts(verdict, sock, address, head, connected0, clientSocket0, clientAddress0, deviceName0,
                   closed0, statusChanges0) == true
    }

    ghost predicate SettledFacts(verdict: Verdict, sock: Socket, address: Address, head: seq<LogEntry>,
                                 connected0: bool, clientSocket0: Option<Socket>, clientAddress0: Option<Address>,
                                 deviceName0: Json, closed0: seq<Socket>, statusChanges0: seq<(bool, Json)>)
      reads this
    {
      match verdict
      case Accept(name) =>
        && connected && clientSocket == Some(sock) && clientAddress == Some(address) && deviceName == name
        && closed == closed0 + Held(clientSocket0) + (if StatusName(name).Some? then [] else [sock])
        && log == head + Farewell(deviceName0) + [ConnectedTo(name, address)]
                  + (if StatusName(name).Some? then [] else [ErrorHandlingClientConnection])
        && statusChanges == statusChanges0 + StatusOnDisconnect(deviceName0)
                            + (if StatusName(name).Some? then [(true, StatusName(name).value)] else [])
      case Reject =>
        && connected == connected0 && clientSocket == clientSocket0
        && clientAddress == clientAddress0 && deviceName == deviceName0
        && closed == closed0 + [sock] && statusChanges == statusChanges0
        && log == head + [InvalidHandshake(address)]
      case Crash =>
        && connected == connected0 && clientSocket == clientSocket0
        && clientAddress == clientAddress0 && deviceName == deviceName0
        && closed == closed0 + [sock] && statusChanges == statusChanges0
        && log == head + [ErrorHandlingClientConnection]
    }

    /** The part of `handle_client_connection` after the response is in. */
    method Settle(verdict: Verdict, sock: Socket, address: Address)
      requires Valid()
      modifies this`clientSocket, this`clientAddress, this`connected, this`deviceName,
               this`log, this`statusChanges, this`closed
      ensures Valid()
      ensures Settled(verdict, sock, address, old(log), old(connected), old(clientSocket),
                      old(clientAddress), old(deviceName), old(closed), old(statusChanges))
    {
      match verdict
      case Accept(name) =>
        if clientSocket.Some? {
          DisconnectClient();
        }
        clientSocket, clientAddress, deviceName, connected := Some(sock), Some(address), name, true;
        log := log + [ConnectedTo(name, address)];
        match StatusName(name) {
          case Some(shown) =>
            statusChanges := statusChanges + [(true, shown)];
          case None =>
            // The emit raises after the client is taken: the handler logs
            // the error and closes the new socket, and the session keeps it.
            log := log + [ErrorHandlingClientConnection];
            closed := closed + [sock];
        }
      case Reject =>
        closed := closed + [sock];
        log := log + [InvalidHandshake(address)];
      case Crash =>
        log := log + [ErrorHandlingClientConnection];
        closed := closed + [sock];
    }

    /** `send_packet`: nothing is sent without a connected client. A send
        that succeeds records the packet on the client socket; one that
        raises is logged and disconnects the client. */
    method SendPacket(packet: seq<bv8>, sendOk: bool) returns (ok: bool)
      requires Valid()
      modifies this`clientSocket, this`clientAddress, this`connected, this`deviceName,
               this`log, this`statusChanges, this`closed, this`sent
      ensures Valid()
      ensures ok <==> old(connected) && sendOk
      ensures !old(connected) ==> unchanged(this)
      ensures old(connected) && sendOk ==>
                sent == old(sent) + [Sent(old(clientSocket).value, PacketBytes(packet))] && unchanged(this`log)
                && connected && clientSocket == old(clientSocket) && closed == old(closed)
                && unchanged(this`clientAddress, this`deviceName, this`statusChanges)
      ensures old(connected) && !sendOk ==>
                && sent == old(sent) && !connected && clientSocket.None? && clientAddress.None?
                && deviceName == JString("")
                && closed == old(closed) + [old(clientSocket).value]
                && log == old(log) + [ErrorSendingPacket] + Farewell(old(deviceName))
                && statusChanges == old(statusChanges) + StatusOnDisconnect(old(deviceName))
    {
      if !connected || clientSocket.None? {
        return false;
      }
      if sendOk {
        sent := sent + [Sent(clientSocket.value, PacketBytes(packet))];
        return true;
      }
      log := log + [ErrorSendingPacket];
      DisconnectClient();
      return false;
    }

    /** One pass of `heartbeat_monitor` after its sleep: while connected a
        heartbeat is sent to the client, and a send that fails disconnects
        it. */
    method HeartbeatStep(now: int, sendOk: bool)
      requires Valid()
      modifies this`clientSocket, this`clientAddress, this`connected, this`deviceName,
               this`log, this`statusChanges, this`closed, this`sent
      ensures Valid()
      ensures !old(connected) ==> unchanged(this)
      ensures old(connected) && sendOk ==>
                sent == old(sent) + [Sent(old(clientSocket).value, HeartbeatMessage(now))]
                && unchanged(this`log) && connected && clientSocket == old(clientSocket) && closed == old(closed)
                && unchanged(this`clientAddress, this`deviceName, this`statusChanges)
      ensures old(connected) && !sendOk ==>
                && sent == old(sent) && !connected && clientSocket.None? && clientAddress.None?
                && deviceName == JString("")
                && closed == old(closed) + [old(clientSocket).value]
                && log == old(log) + [ErrorSendingJson] + Farewell(old(deviceName))
                && statusChanges == old(statusChanges) + StatusOnDisconnect(old(deviceName))
    {
      if !connected {
        return;
      }
      if sendOk {
        sent := sent + [Sent(clientSocket.value, HeartbeatMessage(now))];
      } else {
        log := log + [ErrorSendingJson];
        DisconnectClient();
      }
    }

    /** One datagram of `listen_for_discovery_responses` from host: a
        discovered device is reported; a handling error is logged while the
        server runs and ends the listener (keepListening is false). */
    method DiscoveryStep(data: seq<bv8>, host: string, decode: Utf8Decoder, loads: JsonParser)
      returns (keepListening: bool)
      modifies this`discovered, this`log
      ensures
        var outcome := DecodeDiscoveryResponse(data, host, serverPort, decode, loads);
        && keepListening == !outcome.ListenerStopped?
        && discovered == old(discovered) + (if outcome.Discovered? then [outcome.info] else [])
        && log == old(log) + (if outcome.Discovered? then [outcome.entry]
                              else if outcome.ListenerStopped? && serverRunning then [ErrorListeningForDiscovery]
                              else [])
    {
      var outcome := DecodeDiscoveryResponse(data, host, serverPort, decode, loads);
      match outcome
      case Ignored =>
        keepListening := true;
      case Discovered(info, entry) =>
        discovered := discovered + [info];
        log := log + [entry];
        keepListening := true;
      case ListenerStopped =>
        if serverRunning {
          log := log + [ErrorListeningForDiscovery];
        }
        keepListening := false;
    }
  }
}
