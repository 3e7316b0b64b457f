# A model of the WebRTC application layer

This project models the parts of the Linux WebRTC application that are written out in its own sources
(the ICE, mbedTLS, libwebsockets, JSON, message-queue and timer libraries below it are foreign calls) and
proves what they keep. Each module models one component:

- `IceTypes`, `IceTable`, `SessionLog`, `SessionSteps`, `Answers`, `PeerSession`, `Viewers`, `MediaSource`, `DtlsTransport`,
  `Trace`: the ICE controller, the peer connection session, the DTLS handshake flag, the ready-peer counters
  and the table of viewer sessions. Every source handler is a method that runs as one atomic step. What the
  foreign calls answer comes with the step (`Answers`) and is arbitrary; sends through the request queue
  fail exactly when its ten places are taken. `PeerSession.Run` and `Viewers.Run` are arbitrary schedules of
  those handlers. `IceTable` holds what the operations do to the socket table, `SessionLog` what a session's
  log keeps, `SessionSteps` what every handler leads to.
- `ShiftRegister`, `Crc32`: the STUN FINGERPRINT checksum. The general facts about shift registers are
  proved over an arbitrary word type and then instantiated with 32-bit words.
- `GroupCode`, `Base64`: the Base64 encoder and decoder over buffers. Everything that does not depend on
  the alphabet is proved for any code that turns three values into four symbols.
- `Text`, `TokenMachine`, `IceCandidate`, `IceServers`: numbers in text, the candidate printer and the
  token automaton that reads candidates, ICE server URIs and the list built from them.
- `RingBuffer`, `WebsocketSend`, `WebsocketReceive`, `UriEncoding`: the linked send queue, the partial-write
  sender, the fragment reassembler, the percent-encoder and the credential assembled with it.
- `TwccController`: the sender bandwidth estimation handler, over the reals.
- `Basics`: what several of these share.

History variables (`log`, `drained`, `owed`, `capped`, and the ghost `others` and `surplus`) record what
happened and decide nothing; `fault` and `crashed` only stop the run. `drained` is true from an emptying of the
queue without an armed timer until the next start of the controller, and while a request that re-arms the
timer is being handled, because the heartbeat then rests on its handler.

## Where the code differs from what one would expect

- A null transceiver can be read. An ICE_CLOSED request that is still queued when the next remote description
  arrives clears the transceivers (peer_connection.c:313-315) while ICE runs; when the handshake then completes,
  `PeerConnection_SetTimer` (896-940, called at 1009-1012) looks at both slots without checking them.
  `PeerSession.StaleClosedRequest` is such a schedule of handlers. The read happens exactly when a handshake
  completes, with its checks passed, on a session that has no transceivers
  (`PeerSession.Session.OnDtlsHandshakeComplete`); over whole runs, exactly when that session was not started
  since its transceivers were last cleared (`PeerSession.Run`, `Viewers.Run`).
- No session in CONNECTION_READY goes uncounted, but a track's `numReadyPeer` can be too high: a session leaves
  CONNECTION_READY without a CLOSED notice when the report of a connection overwrites its state
  (peer_connection.c:754), when the next remote description does (1934), when a CLOSED request is taken (318), and
  it can be told READY twice. `PeerSession.SilentDeparture` is a schedule after which both tracks count one
  session and none is ready. `Viewers.Run` proves that the count is the ready sessions and these departures, which
  are logged exactly when the state that is left is CONNECTION_READY, less the READY notices that found the count
  at its maximum; so it is too high exactly when more sessions departed than notices were capped, and right while
  no session has departed (`Viewers.CountRight`).
- The heartbeat does not survive emptying the request queue unless the timer is armed
  (`PeerSession.Session.EmptyMessageQueue`); `PeerSession.LostHeartbeat` is a schedule after which a controller in
  PROCESS is never woken again. Between a start of the controller and such an emptying the heartbeat is never
  lost. A controller that has closed is also kept beating until the session has been told (`owed`).
- `stun:host:443`, the second example in the comment above the URI parser, is refused, because the parser
  demands a query for every kind (`IceServers.NoQueryRefused`). A URI that is refused half-way leaves
  what it has read in the slot, and a STUN URI leaves the slot's old protocol.
- The adjustment interval is 10,000,000 microseconds; its comment and the handler's say one second.
- An empty first fragment of a message is skipped together with the reset of the fill count, and an empty
  last fragment is never delivered (`WebsocketReceive.ExactDelivery` is the exact condition).
- A bad protocol, priority, address, port or `typ` word in a candidate is reported as a lack of elements;
  keyword words are accepted when they are an initial part of the keyword, down to the empty word, which stands for
  TCP and for a host (`IceCandidate.ReadableExactly`).
- Text converted to a number may have anything behind its first digit, wraps at 2^32, and counts as zero
  when it is empty (`Text.ConvertStringToUl`).

## Model

| member | source | states |
|---|---|---|
| `PeerSession.Run` | examples/peer_connection/peer_connection.c:108-147 | for every schedule of handlers and any foreign answers: every handler leads where `SessionSteps.Leads` says; the socket table, nomination and heartbeat invariants hold after every handler, CLOSED is entered only with every descriptor closed, FOUND is reported at most once per start, between two CLOSED notices to a track there is a READY notice, the READY notices less the CLOSED ones are the silent departures and one for a ready session, and a null transceiver is read exactly when a handshake completes on a session not started since its transceivers were last cleared |
| `PeerSession.Session.DoStep` | examples/peer_connection/peer_connection.c:108-389 | every handler leads where it should, keeps the session invariant, also that a ready session has its transceivers, and enters CLOSED only with no descriptor open; a packet that acts does; nothing runs after a fault |
| `PeerSession.Session.OnTimerExpire` | examples/ice_controller/ice_controller.c:72-130 | an expiry queues the request of the state (connectivity, check, closing, closed) or, with the queue full, re-arms the timer with the state's interval, so the heartbeat holds afterwards |
| `PeerSession.Session.UpdateTimerInterval` | examples/ice_controller/ice_controller.c:1831-1871 | arms the one-shot timer and changes nothing else |
| `PeerSession.Session.SendEvent` | examples/peer_connection/peer_connection.c:175-224 | appends to the request queue, refused exactly when it is full |
| `PeerSession.Session.EmptyMessageQueue` | examples/peer_connection/peer_connection.c:149-173 | the queue is empty and the heartbeat survives exactly when the timer is armed |
| `PeerSession.Session.FreeSocketContext` | examples/ice_controller/ice_controller_net.c:513-542 | exactly the slot is freed, and a TLS descriptor, which the disconnect has closed already, is closed once more |
| `PeerSession.Session.SendPacket` | examples/ice_controller/ice_controller_net.c:1083-1218 | which result each answer gives; only a failed send changes anything: it closes the slot and, if that was the nominated one, asks the session to close and re-arms the timer |
| `PeerSession.Session.SendToRemotePeer` | examples/ice_controller/ice_controller.c:1576-1686 | a packet goes out exactly when the nominated context is selected and the socket takes it; a broken socket is closed, the session asked to close and the timer armed; nothing else changes anything |
| `PeerSession.Session.ForeignSends` | examples/peer_connection/peer_connection.c:681-705 | of any sends made by mbedTLS, SCTP or SRTP the first broken one, if any, severs the connection as above, and the others change nothing |
| `PeerSession.Session.SendMany` | examples/ice_controller/ice_controller.c:418-589 | exactly the contexts whose send breaks are closed |
| `PeerSession.Session.AddUdpCandidate` | examples/ice_controller/ice_controller_net.c:138-252 | follows `IceTable.GatheredUdp`: a failed `socket` uses up a slot, a failed bind gives it back, a refused candidate leaves it counted and closed, success fills it with a fresh descriptor |
| `PeerSession.Session.AddTlsRelayCandidate` | examples/ice_controller/ice_controller_net.c:254-364 | follows `IceTable.GatheredTls`: a failed connection gives the slot back, one not yet up is in progress, a refused candidate leaves the slot counted and closed |
| `PeerSession.Session.AddLocalCandidates` | examples/ice_controller/ice_controller_net.c:1220-1268 | the loop does the attempts one after the other (`IceTable.GatheredAll`), each by its kind |
| `PeerSession.Session.ExecuteTlsHandshake` | examples/ice_controller/ice_controller_net.c:1270-1370 | only the slot in progress changes; it stays in progress, becomes created with a relay candidate and its descriptor, or is closed |
| `PeerSession.Session.ProcessLocalCandidates` | examples/ice_controller/ice_controller.c:334-416 | every handshake in progress moves as its answer says, exactly the contexts whose request breaks are closed, and the others stay |
| `PeerSession.Session.ReleaseOtherSockets` | examples/ice_controller/ice_controller.c:682-733 | every context but the nominated one and relay ones is closed; without a nomination nothing changes |
| `PeerSession.Session.CloseContexts` | examples/ice_controller/ice_controller.c:1106-1162 | the loop frees every slot but the open relay contexts, and tells whether there is one |
| `PeerSession.Session.Destroy` | examples/ice_controller/ice_controller.c:1073-1175 | CLOSED is entered exactly when no relay context is open, with polling off and no descriptor left; otherwise CLOSING (NONE from NEW) with the timer armed and nothing queued |
| `PeerSession.Session.ProcessIceCandidatesAndPairs` | examples/ice_controller/ice_controller.c:889-967 | candidates are gathered once, what sends and handshakes make of every slot, the session is asked to close when time is up, and the timer is re-armed on every path |
| `PeerSession.Session.PeriodConnectionCheck` | examples/ice_controller/ice_controller.c:969-1015 | fails exactly without a nomination, which cannot happen in READY, and otherwise what the binding request and the handshakes make of every slot, and the timer re-armed |
| `PeerSession.Session.AddressClosing` | examples/ice_controller/ice_controller.c:1017-1071 | while a context is alive handshakes go on and the timer is re-armed, and otherwise CLOSED is entered with no descriptor left |
| `PeerSession.Session.CloseAllContexts` | examples/ice_controller/ice_controller.c:1529-1540 | every descriptor of an earlier round is closed |
| `PeerSession.Session.ResetController` | examples/ice_controller/ice_controller.c:1529-1559 | an empty table, no nomination, state PROCESS, gathering requested |
| `PeerSession.Session.IceStart` | examples/ice_controller/ice_controller.c:1445-1574 | an empty table, no nomination, state PROCESS, the first request queued unless the queue is full, the heartbeat running, and FOUND possible again |
| `PeerSession.Session.HandleStunPacket` | examples/ice_controller/ice_controller_net.c:1372-1700 | for every answer of the ICE library: a connection is found exactly when the pair has succeeded, nothing is nominated and the response, if one is asked for, went out; an address update marks the slot gathered, a terminated TURN session or a broken send closes exactly the slot, and nothing else changes anything |
| `PeerSession.Session.HandleStunAndNominate` | examples/ice_controller/ice_controller_socket_listener.c:423-450 | a packet that finds a connection on a known pair nominates its slot, and the session is in P2P_FOUND or has read a null transceiver; any other leaves nomination and state |
| `PeerSession.Session.SelectSocket` | examples/ice_controller/ice_controller_socket_listener.c:171-282 | the nominated context is below the count and has a candidate and a pair |
| `PeerSession.Session.UpdateNominatedSocketContext` | examples/ice_controller/ice_controller_socket_listener.c:171-282 | a known pair nominates the slot; only the first nomination since a start reports the connection, a later one moves the nomination silently |
| `PeerSession.Session.ReportConnection` | examples/peer_connection/peer_connection.c:745-755 | FOUND is logged, and the session is in P2P_FOUND afterwards even when the handshake has just made it ready or closed it, unless that read a null transceiver |
| `PeerSession.Session.HandlePacket` | examples/ice_controller/ice_controller_socket_listener.c:380-466 | each kind of packet keeps the invariant; a record that completes the handshake and reaches DTLS makes a session with transceivers ready and reads a null one otherwise; a STUN packet that finds the connection nominates; a binding request that is only answered and an unknown packet change nothing |
| `PeerSession.Session.HandleRxPacket` | examples/ice_controller/ice_controller_socket_listener.c:284-474 | reading a socket to the end keeps the invariant and only adds requests; after quiet packets the same effects, and a failed read closes exactly the slot |
| `PeerSession.Session.PollSockets` | examples/ice_controller/ice_controller_socket_listener.c:476-570 | one pass of the listener over the open contexts keeps the invariant; after quiet polls the same effects |
| `PeerSession.Session.ExecuteDtlsHandshake` | examples/peer_connection/peer_connection.c:848-894 | a completed handshake makes the session ready or closes it, a call after the time is up closes it unless the call failed, any other leaves its state; a null transceiver is read exactly when the handshake completes in order on a session without transceivers; a broken send meanwhile closes the socket |
| `PeerSession.Session.OnDtlsHandshakeComplete` | examples/peer_connection/peer_connection.c:942-1041 | the session becomes ready exactly when the checks pass and it has transceivers, and then each track is told READY once; a null transceiver is read exactly when the checks pass without transceivers; a failed check leaves it in CLOSING |
| `PeerSession.Session.SetTimer` | examples/peer_connection/peer_connection.c:896-940 | both transceiver slots are read: a fault exactly when they are cleared |
| `PeerSession.Session.BecomeReady` | examples/peer_connection/peer_connection.c:1009-1041 | a session with transceivers becomes ready, is announced to both tracks and keeps only its nominated and relay sockets; one without reads a null transceiver and its state stays |
| `PeerSession.Session.NotifyAllReady` | examples/peer_connection/peer_connection.c:1014-1027 | the session, which has transceivers, is ready, each of its tracks is told READY once, and the tracks count every ready session; being ready already is a silent departure |
| `PeerSession.Session.NotifyAllClosed` | examples/peer_connection/peer_connection.c:2136-2158 | each track of a ready session is told CLOSED once and counts one less, which is never below the other ready sessions |
| `PeerSession.Session.ProcessDtlsPacket` | examples/peer_connection/peer_connection.c:1043-1082 | a record that completes the handshake in order makes a session with transceivers ready, and a null one is read exactly when it has none; a read error or close notice, and a completion out of order, close the session; any other record leaves its state |
| `PeerSession.Session.HandleDtlsTermination` | examples/peer_connection/peer_connection.c:660-679 | ends in CLOSING with the invariant kept |
| `PeerSession.Session.CloseSession` | examples/peer_connection/peer_connection.c:2123-2216 | CLOSED notices go out exactly from CONNECTION_READY, then the controller is destroyed |
| `PeerSession.Session.OnClosePeerConnection` | examples/peer_connection/peer_connection.c:302-320 | the session is INITED without transceivers, from whatever state, without a CLOSED notice; leaving CONNECTION_READY is a silent departure |
| `PeerSession.Session.HandleRearming` | examples/peer_connection/peer_connection.c:429-469 | what a connectivity round, a connection check and a closing request lead to, slot by slot; the timer is armed afterwards, or the controller CLOSED with no descriptor |
| `PeerSession.Session.HandleOther` | examples/peer_connection/peer_connection.c:322-389 | every other request keeps the heartbeat; which state, queue and controller each leads to, also a report that breaks the connection |
| `PeerSession.Session.HandleRequest` | examples/peer_connection/peer_connection.c:322-389 | the session task serves its first request as above; a connection check in P2P_FOUND retries the handshake, with its effects; an inactive session is not ready afterwards |
| `PeerSession.Session.OnCloseSessionTimerExpire` | examples/peer_connection/peer_connection.c:274-300 | without a description in time the queue holds exactly the request to close |
| `PeerSession.Session.StartPeerConnectionSession` | examples/app_common/app_common.c:230-350 | both transceivers, an empty queue, state START |
| `PeerSession.Session.AddTransceiver` | examples/peer_connection/peer_connection.c:1340-1368 | refused exactly when both slots are taken, appended otherwise |
| `PeerSession.Session.MoveTo` | examples/peer_connection/peer_connection.c:1934-1934 | entering a state without a notice keeps every ready session counted; it is a silent departure exactly when the state left is CONNECTION_READY |
| `PeerSession.StaleClosedRequest` | examples/peer_connection/peer_connection.c:302-320 | a schedule of handlers from the creation of a session that ends in reading a null transceiver: closed unconnected, described again before its ICE_CLOSED request is taken, a socket gathered, the peer's binding request answered, the handshake completed |
| `PeerSession.GatherAndDestroy` | examples/ice_controller/ice_controller.c:1073-1175 | a controller that gathered no relay is CLOSED at once with no descriptor left |
| `PeerSession.GatherRelayAndDestroy` | examples/ice_controller/ice_controller.c:1106-1162 | one that gathered a relay is not: it keeps the relay's descriptor and its timer is armed |
| `PeerSession.ExpiryCloses` | examples/ice_controller/ice_controller.c:102-108 | a closing controller with no context alive is CLOSED once the request of its next expiry is served |
| `PeerSession.AnswerPeer` | examples/ice_controller/ice_controller_net.c:1372-1700 | a pass that only answers the peer's binding request leaves controller, queue, state, transceivers and handshake as they were |
| `PeerSession.SilentDeparture` | examples/peer_connection/peer_connection.c:1934-1934 | a schedule after which both tracks count one session and the only session is in FIND_CONNECTION: described again while it is ready |
| `PeerSession.LostHeartbeat` | examples/peer_connection/peer_connection.c:1713-1731 | a schedule after which the controller is active with neither an armed timer nor a request that re-arms it: a session that was cleared while ICE runs is started again after its timer has expired |
| `SessionLog.AppendSilent` | examples/peer_connection/peer_connection.c:754-754 | a state left without a notice keeps the log in order, with one departure more exactly when the session was ready |
| `SessionLog.BalanceMeans` | examples/peer_connection/peer_connection.c:1014-1027 | what the invariant balances are the READY notices less the CLOSED ones less the departures |
| `SessionLog.BareAppend` | examples/peer_connection/peer_connection.c:302-320 | one more event: the transceivers are gone exactly after a clearing with no start since, and a completion is stale exactly when it happens then |
| `SessionLog.AppendBothClosed` | examples/peer_connection/peer_connection.c:2136-2158 | an announced session can be told CLOSED on both tracks without two CLOSED notices in a row, and the notices stay balanced |
| `SessionLog.AppendReady` | examples/peer_connection/peer_connection.c:1014-1027 | READY notices to both tracks announce the session, and the notices stay balanced |
| `PeerSession.Session.SetRemoteDescription` | examples/peer_connection/peer_connection.c:1754-1979 | success exactly when every stage succeeds, with each listed candidate queued while there is room; a started controller has its heartbeat and a handshake under way; the session is in FIND_CONNECTION exactly from the RTP stage on, also when the start-up barrier cannot be written, and departs silently then exactly from CONNECTION_READY; it keeps its state when an earlier stage is refused |
| `IceTable.CloseKeepsTable` | examples/ice_controller/ice_controller_net.c:513-542 | closing a slot keeps "descriptor -1 exactly when unused" and "descriptors held are those of the slots" |
| `IceTable.OpenKeepsTable` | examples/ice_controller/ice_controller_net.c:138-364 | using the slot at the count keeps both |
| `IceTable.UnusedHoldsNothing` | examples/ice_controller/ice_controller.c:1029-1067 | a table whose counted slots are unused holds no descriptor |
| `IceTable.FreedTable` | examples/ice_controller/ice_controller_net.c:513-542 | freeing a slot keeps the table and the nomination valid, starts no handshake, releases nothing else, and does nothing to an unused slot |
| `IceTable.GatheredUdpTable` | examples/ice_controller/ice_controller_net.c:138-252 | any outcome of an attempt for a UDP context keeps the table valid |
| `IceTable.GatheredTlsTable` | examples/ice_controller/ice_controller_net.c:254-364 | any outcome of an attempt for a TLS context keeps the table valid |
| `IceTable.GatheredAllTable` | examples/ice_controller/ice_controller_net.c:1220-1268 | any attempts with any answers keep the table valid, the count within 100 and not lower, and everything but the table |
| `IceTable.AttemptLeaves` | examples/ice_controller/ice_controller_net.c:138-364 | a successful attempt leaves a context with the kind of its candidate and its descriptor behind the older slots, which stay; a pending one a context in progress; any other no slot or descriptor changed and the count that the source leaves |
| `IceTable.RelayLingers` | examples/ice_controller/ice_controller_net.c:254-364 | a successful relay attempt leaves a context that keeps the controller from closing |
| `IceTable.NoRelayNoneLingers` | examples/ice_controller/ice_controller_net.c:1220-1268 | attempts none of which is for a relay leave none |
| `IceTable.ReleasedTable` | examples/ice_controller/ice_controller.c:1106-1162 | after closing every context but open relays each slot is as `Released` says, and with no relay open no descriptor is left |
| `IceTable.OthersReleased` | examples/ice_controller/ice_controller.c:682-733 | after a handshake every counted context but the nominated one and relays is closed and the table is valid |
| `IceTable.AllFreed` | examples/ice_controller/ice_controller.c:1529-1540 | with all hundred slots freed no descriptor is left |
| `IceTypes.HeartbeatAfterTake` | examples/peer_connection/peer_connection.c:322-389 | a request that re-arms nothing can be taken without loss, and ICE_CLOSED settles what was owed |
| `MediaSource.Source.RemotePeerReady` | examples/app_media_source/app_media_source.c:268-299 | counts up to the number of viewers |
| `MediaSource.Source.RemotePeerClosed` | examples/app_media_source/app_media_source.c:301-336 | counts down to zero, and rewinds the file at zero |
| `DtlsTransport.Context.Init` | examples/network_transport/transport_dtls_mbedtls.c:1201-1286 | handshaking exactly after a successful set-up, new after a failed one, and as before when the call is refused for its parameters |
| `DtlsTransport.Context.ProcessPacket` | examples/network_transport/transport_dtls_mbedtls.c:1289-1375 | completion is reported exactly when a handshaking context is read without error and mbedTLS has left its handshake |
| `DtlsTransport.FirstDecides` | examples/network_transport/transport_dtls_mbedtls.c:1289-1375 | the first answer that does not ask for more decides: a close notice closes, an error fails, anything else is well |
| `DtlsTransport.Context.ExecuteHandshake` | examples/network_transport/transport_dtls_mbedtls.c:1378-1432 | a ready context answers "already complete"; completion makes it ready |
| `DtlsTransport.Run` | examples/network_transport/transport_dtls_mbedtls.c:1238-1428 | over any calls and answers, completion is reported at most once between two initialisations that were not refused, and the context is READY exactly when it was reported since the last one |
| `Viewers.Application.FindSlot` | examples/app_common/app_common.c:1672-1720 | the client's own slot even when an idle one comes earlier, otherwise the first idle slot |
| `Viewers.Application.GetPeerConnectionSession` | examples/app_common/app_common.c:1672-1720 | a slot is given exactly when the client has its own or one is idle, and it is not refused; it is the client's own, failing that the first idle one, which is started; a session in use is not disturbed |
| `Viewers.Application.StartSession` | examples/app_common/app_common.c:230-350 | starts exactly when the name fits and the configuration is accepted; then the slot takes the name and the session has both transceivers and an empty queue, otherwise nothing changes |
| `Viewers.Run` | examples/app_common/app_common.c:1672-1720 | over any interleaving of all sessions' handlers and messages: every event moves sessions and clients as `Viewers.Moves` says; no client has two slots; after every one both tracks count exactly the sessions in CONNECTION_READY and the silent departures less the capped notices, at least the former and at most the viewers; each log has the departures counted, FOUND at most once per start, alternating notices and balanced ones; the process ends exactly when a handshake completes on a session not started since its transceivers were cleared |
| `Viewers.CountRight` | examples/app_media_source/app_media_source.c:268-336 | the count is never too low, too high exactly when more sessions departed silently than READY notices were capped, and right while none has |
| `Viewers.Application.HandleMessage` | examples/app_common/app_common.c:1139-1165 | the client's slot takes its name and its session, started if idle, takes the step of the message, and no other session moves; without a slot nothing changes |
| `Viewers.CandidateQueued` | examples/app_common/app_common.c:1194-1223 | a readable candidate of a known client with an active session is queued in that session if there is room, and nothing else happens |
| `Viewers.Application.HandleEvent` | examples/app_common/app_common.c:1672-1720 | a handler moves its session alone, as the handler should; a message is received as above; nothing happens after a crash |
| `ShiftRegister.Register.FeedConcat` | examples/ice_controller/ice_controller.c:145-165 | feeding two messages is feeding their concatenation |
| `ShiftRegister.Register.FeedPacked` | examples/ice_controller/ice_controller.c:145-165 | a message that fits in the register can be absorbed before the shifts |
| `ShiftRegister.Register.TableStep` | examples/ice_controller/ice_controller.c:157-160 | a table of shifted low parts does the work of a symbol's shifts |
| `Crc32.LowPartByte` | examples/ice_controller/ice_controller.c:47-70 | each of the 256 table entries is eight shifts of its index |
| `Crc32.TableStep` | examples/ice_controller/ice_controller.c:157-160 | one look-up equals eight bit-by-bit steps |
| `Crc32.CalculateCrc32` | examples/ice_controller/ice_controller.c:145-165 | equals the bit-by-bit CRC with polynomial 0xEDB88320 for every buffer and seed; a null buffer counts as empty |
| `Crc32.Incremental` | examples/ice_controller/ice_controller.c:145-165 | crc(crc(s, a), b) = crc(s, a + b) |
| `Crc32.BurstDetected` | examples/ice_controller/ice_controller.c:145-165 | messages that differ only inside four consecutive bytes have different CRCs |
| `GroupCode.Code.Encode` | examples/base64/base64.c:53-125 | the error of every bad call, and otherwise exactly the encoded text, 4*ceil(n/3) symbols, and nothing behind it |
| `GroupCode.Code.Decode` | examples/base64/base64.c:127-232 | the error of every bad call, and otherwise exactly the decoded octets, floor(3m/4) after padding removal, and nothing behind them |
| `GroupCode.Code.EncodedLength` | examples/base64/base64.c:73-76 | 4*ceil(n/3) symbols |
| `GroupCode.Code.PlainLength` | examples/base64/base64.c:176-178 | floor(3m/4) octets |
| `GroupCode.Code.EncodedCanonical` | examples/base64/base64.c:53-125 | encoding gives canonical text |
| `Base64.EncodeTable` | examples/base64/base64.c:17-17 | the encoding alphabet, entry by entry |
| `Base64.DecodeTable` | examples/base64/base64.c:23-51 | the decoding table, entry by entry; zero outside the alphabet |
| `Base64.SlicesAreDigits` | examples/base64/base64.c:90-97 | the symbols of three octets are the base-64 digits of the number whose base-256 digits they are |
| `Base64.DecodeOfEncode` | examples/base64/base64.c:53-232 | decode(encode(x)) = x; the text is refused exactly for empty x |
| `Base64.EncodeOfDecode` | examples/base64/base64.c:53-232 | encode(decode(s)) = s exactly for non-empty canonical s |
| `Text.ConvertStringToUl` | examples/string_utils/string_utils.c:19-55 | the leading digits modulo 2^32, nothing when the text starts otherwise, zero for empty text |
| `Text.DecimalRoundTrip` | examples/string_utils/string_utils.c:19-55 | a printed number is read back modulo 2^32 |
| `TokenMachine.TokensApart` | examples/ice_controller/ice_controller.c:1312-1325 | text before and after a space is read apart |
| `TokenMachine.Machine.Run` | examples/ice_controller/ice_controller.c:1307-1442 | the loop over the words computes the result of the first eight and looks at nine at most |
| `IceCandidate.Deserialize` | examples/ice_controller/ice_controller.c:1264-1443 | OK exactly when eight words exist and the third to eighth are accepted, INVALID_TYPE exactly when only the eighth is not, and the fields the words say |
| `IceCandidate.TrailingIgnored` | examples/ice_controller/ice_controller.c:1307-1442 | text behind the eighth word and a space never changes the result |
| `IceCandidate.LineReads` | examples/ice_controller/ice_controller.c:1307-1442 | every candidate is read back from its line: either spelling of either protocol, all types, any 32-bit priority, address and 16-bit port, any foundation and component, and anything behind the eighth word |
| `IceCandidate.ShortLineReads` | examples/ice_controller/ice_controller.c:1307-1442 | the same when nothing follows the eighth word |
| `IceCandidate.ReadableExactly` | examples/ice_controller/ice_controller.c:1329-1432 | a line is accepted exactly when it has eight words, the third starts a protocol's name, the fourth and sixth are empty or start with a digit, the fifth is an address, the seventh is `typ` and the eighth starts a type's name |
| `IceCandidate.ProtocolStarts` | examples/ice_controller/ice_controller.c:1333-1358 | a word stands for UDP exactly when it is a non-empty initial part of its name, for TCP when it is one of that name, and for nothing otherwise |
| `IceCandidate.KindStarts` | examples/ice_controller/ice_controller.c:1396-1432 | a word that starts a type's name stands for the type with its first letter, the empty word for host |
| `IceCandidate.PrintedReads` | examples/app_common/app_common.c:1276-1320 | every printed IPv4 or IPv6 candidate is read back as UDP with the same priority, address, port and type |
| `IceCandidate.PrintedFits` | examples/app_common/app_common.c:65-67 | the printed candidate fits its 512-byte buffer |
| `IceCandidate.TypeRoundTrip` | examples/app_common/app_common.c:1250-1274 | each of the four type names is read as its type |
| `IceCandidate.AddressRoundTrip` | examples/ice_controller/ice_controller_net.c:1039-1073 | a printed address fits the 39-character limit and is read back in its family |
| `IceCandidate.LawfulNetwork` | examples/ice_controller/ice_controller_net.c:1039-1073 | the contract assumed of `inet_pton` can be met: reading exactly the printed forms meets it |
| `IceServers.ParseIceServerUri` | examples/app_common/app_common.c:352-491 | succeeds exactly on the URIs of `Parsed`, fills the slot from them, touches no other slot and no credentials |
| `IceServers.ParsedParts` | examples/app_common/app_common.c:352-491 | a URI made of host, port text and query is read as those parts |
| `IceServers.ParsedOnly` | examples/app_common/app_common.c:352-491 | every accepted URI is made of such parts |
| `IceServers.PrintedParses` | examples/app_common/app_common.c:352-491 | a turn or turns URI printed from a host without colon under 256 bytes, a 16-bit port and udp or tcp is read back |
| `IceServers.PrintedStunParses` | examples/app_common/app_common.c:352-491 | a STUN URI with any query is read back and says nothing about the protocol |
| `IceServers.AcceptedExactly` | examples/app_common/app_common.c:352-491 | a URI of such parts is accepted exactly when the host is under 256 characters, the port text is empty or starts with a digit and says at most 65535, and there is a query, which for TURN starts one of the two transports |
| `IceServers.NoQueryRefused` | examples/app_common/app_common.c:361-363 | every URI without a query is refused, also the STUN example |
| `IceServers.FillConfig` | examples/app_common/app_common.c:614-645 | the entries of one configuration's URIs that parse, in order, cut at the capacity |
| `IceServers.FillConfigs` | examples/app_common/app_common.c:586-645 | the nested loops equal the flat list of all entries, cut at the capacity |
| `IceServers.EntriesConcat` | examples/app_common/app_common.c:586-645 | the list of all configurations is the concatenation of their lists |
| `IceServers.FromUrisConcat` | examples/app_common/app_common.c:614-645 | the list of all URIs of one is the concatenation of theirs |
| `IceServers.EntriesOne` | examples/app_common/app_common.c:586-645 | one URI has an entry exactly when it parses and name and password fit, and the entry carries both as the configuration gives them |
| `IceServers.GetIceServerList` | examples/app_common/app_common.c:493-654 | the default STUN entry, then that list |
| `RingBuffer.Queue.Insert` | examples/networking/ring_buffer.c:40-88 | appends to the first-in first-out queue although the tail may be stale; the error cases change nothing |
| `RingBuffer.Queue.GetHeadEntry` | examples/networking/ring_buffer.c:92-119 | the first entry, or EMPTY exactly when there is none |
| `RingBuffer.Queue.RemoveHeadEntry` | examples/networking/ring_buffer.c:123-155 | removes the first entry exactly when it is the given one |
| `WebsocketSend.Websocket.Send` | examples/networking/networking.c:1986-2035 | a sent message is one more queued entry with a buffer of its own; any failure leaves the queue as it is and the buffer freed |
| `WebsocketSend.Websocket.Write` | examples/networking/networking.c:1377-1428 | the bytes taken are the next ones of the head; a complete write frees the buffer, a partial one advances the index, a failed one changes nothing |
| `WebsocketSend.Websocket.Remove` | examples/networking/networking.c:1406-1420 | removing the head after a complete write never finds another element |
| `WebsocketSend.Conservation` | examples/networking/networking.c:1377-1428 | in every trace of the queue protocol, written bytes followed by unwritten ones are the accepted messages |
| `WebsocketSend.Run` | examples/networking/networking.c:1377-2035 | any interleaving of producers and callbacks on the linked queue: conservation, no INCONSISTENT, every queued entry with bytes left, every buffer freed once or still queued |
| `WebsocketReceive.Receiver.Receive` | examples/networking/networking.c:1326-1375 | the text held and the outcome follow `Take`; the fill count never exceeds the buffer |
| `WebsocketReceive.BinaryIgnored` | examples/networking/networking.c:1333-1333 | binary frames between the fragments change neither the text held nor what is delivered |
| `WebsocketReceive.MessageOutcome` | examples/networking/networking.c:1326-1375 | what any text message leads to: refused exactly when it and what it is added to exceed the buffer |
| `WebsocketReceive.ExactDelivery` | examples/networking/networking.c:1335-1356 | a message is delivered as the concatenation of its fragments exactly when it fits, does not end with an empty fragment and does not begin with one while text is held |
| `WebsocketReceive.Run` | examples/networking/networking.c:1326-1375 | messages in non-empty fragments, with any binary frames among them, are delivered whole, up to the first that exceeds 12 KiB, which is refused |
| `UriEncoding.UriEncode` | examples/networking/networking.c:291-365 | succeeds exactly when the encoding fits, writes exactly it, and nothing else in the buffer |
| `UriEncoding.DecodeOfEncode` | examples/networking/networking.c:291-365 | percent-decoding undoes it |
| `UriEncoding.EncodedConcat` | examples/networking/networking.c:291-365 | encoding piece by piece is encoding the whole |
| `UriEncoding.EncodedIsSafe` | examples/networking/networking.c:305-312 | only unreserved octets and percent signs come out |
| `UriEncoding.TripletsUpper` | examples/networking/networking.c:299-347 | the two octets behind every percent sign are upper-case hexadecimal digits |
| `UriEncoding.UnreservedExactly` | examples/networking/networking.c:305-312 | the unreserved octets are the letters, the digits and `-`, `.`, `_`, `~` |
| `UriEncoding.UnreservedKept` | examples/networking/networking.c:305-312 | exactly the texts of unreserved octets are left as they are |
| `UriEncoding.ScopeFields` | examples/networking/networking.c:652-803 | the scope can be taken apart at its slashes into key, date, region, service and request type |
| `UriEncoding.WriteCredential` | examples/networking/networking.c:652-803 | the eight calls succeed exactly when the encoded scope fits, and then the buffer holds the encoding of the joined scope |
| `TwccController.PercentExact` | examples/app_common/app_common.c:692-693 | the loss percentage is right exactly when its 32-bit numerator does not wrap |
| `TwccController.ConstantLoss` | examples/app_common/app_common.c:81-92 | after n reports of loss p the average is p + 0.95^n * (average - p) |
| `TwccController.Converges` | examples/app_common/app_common.c:81-92 | 59 reports of any constant loss bring any average within five percent of it |
| `TwccController.Recovers` | examples/app_common/app_common.c:81-92 | from any average in [0, 100], 59 loss-free reports bring it to 5 or less |
| `TwccController.RecoversNoSooner` | examples/app_common/app_common.c:81-92 | after total loss 58 do not |
| `TwccController.FollowsInRun` | examples/app_common/app_common.c:691-698 | in a run, after any 59 reports in a row that lost nothing the average is 5 or less, after any 59 that lost everything 95 or more |
| `TwccController.AdjustmentHeeds` | examples/app_common/app_common.c:705-784 | an adjustment after the former raises both rates, one after the latter cuts both to a twentieth or to the minimum |
| `TwccController.RaisedInRange` | examples/app_common/app_common.c:750-757 | a raised rate is five percent more, rounded down, exactly when that is less than the maximum, and otherwise the maximum |
| `TwccController.LoweredInRange` | examples/app_common/app_common.c:758-765 | a lowered rate is what the loss leaves, rounded down, or the minimum if that is more, and not above a rate over the minimum |
| `TwccController.Controller.Handle` | examples/app_common/app_common.c:661-784 | the new average is nineteen twentieths of the old and a twentieth of the loss; when an adjustment is made, and what it suggests |
| `TwccController.Run` | examples/app_common/app_common.c:691-784 | on every run under a clock that does not go back the average stays in [0, 100] and follows the loss as above, every adjustment raises or lowers each rate by its own amount as the average demands, heeds 59 extreme reports, and comes at least 10,000,000 microseconds after the one before |

## Left out

- Threads inside a handler: handlers run one after the other, so a race inside one is not modelled; mutex and timer-set failures are excluded.
- The ICE, mbedTLS, libwebsockets, SCTP, SRTP, JSON, SigV4 and GStreamer libraries: their answers are arbitrary, or obey a contract stated where they are used (`IceCandidate.Network.Lawful` for `inet_pton`, the bound on `answer` for `lws_write`).
- PeerSession.Session.FreeSocketContext: does not model another thread opening a descriptor between the two closes of a TLS one (transport_mbedtls.c:800-853, tcp_sockets_wrapper.c:156-161), which the second close would then hit.
- Viewers.Application.StartSession: a refusal between the two transceivers is not modelled, because the callbacks that prepare them fail only on null pointers or another track kind (examples/master/master.c:30-61) and an idle session has both slots free.
- PeerSession.Session.HandleStunPacket: the contents of STUN packets are not modelled, only what the ICE library asks for.
- PeerSession.Session.SetRemoteDescription: SDP parsing and codec negotiation are one arbitrary answer, and so are the certificate checks in `PeerSession.Session.OnDtlsHandshakeComplete`.
- Crc32.CalculateCrc32: the 32-bit loop index on buffers of 4 GiB and more is not modelled.
- GroupCode.Code.Encode: the 32-bit loop index on inputs of 4 GiB and more is not modelled, and input and output are different buffers.
- GroupCode.Code.Decode: as for `GroupCode.Code.Encode`.
- IceCandidate.Deserialize: the JSON form of a candidate is left out; the text is taken as it stands and free of NUL characters.
- IceServers.GetIceServerList: the default STUN name is at most 256 characters; a longer one, which only another region constant can give, would be written outside its buffer.
- RingBuffer.Queue.Insert: a null queue pointer is not modelled.
- TwccController.Controller.Handle: reports with more packets received than sent are excluded, and so is the rounding of floating point.
- UriEncoding.UriEncode: where `char` is signed, octets above 127 index before the digit table; here `char` is unsigned, as in `Base64`.
- UriEncoding.WriteCredential: the parts of the signed request that are built with formatted printing are left out.
- Socket options, DNS, interface listing, certificate generation, key derivation, HTTP, data channels, jitter and rolling buffers, metrics and logging: they would add only easy members or are not written out in the sources.
