# NetherNet verification

A Dafny model of the protocol core of `nethernet`: negotiating a connection over unreliable
signaling, carrying packets over its two data channels, and the byte and text formats underneath.
Check it with `dafny verify dfyconfig.toml`.

## What is modelled

**Negotiation** (`Sessions`, `Managers`, `Routing`, `Mapping`, `Conservation`, `Arrivals`, `Races`,
`Agreement`, `Handshake`, `Engine`). A session is a state machine whose events are the stretches of code between two awaits;
a manager adds the routing map, the parked candidates and one task per suspended coroutine. A
sequence of manager events is one interleaving of message arrivals, timers, transport callbacks,
closes and coroutine resumptions, and no interleaving is excluded by construction. A world is any
number of managers on a network that loses, repeats and reorders messages and cuts long ones;
`Handshake` shows that from every reachable world two peers that hear each other get connected. Where
the code needs nothing else to happen while a coroutine is suspended, this is a named hypothesis
(`Sessions.WindowsQuiet`, `Routing.QuietRun`, `Mapping.NoneDislodges`, `Conservation.NoOverlap`,
`Arrivals.NoTheft`), and for each a lemma says that a property holds if and only if the hypothesis
does; `Races` gives runs, as the
texts received and the coroutines resumed, that violate them. `Engine` holds the session and manager
objects; each of their methods is proved to do what the step function says, and the manager records
its history, so that what is proved of every run holds of the object.

**Packet path** (`Framing`, `PeerConnections`, `Endpoints`, `Connections`, `Connecting`, `EndToEnd`).
Fragmentation with a countdown byte, reassembly, deferred sends, partial reads, the candidate
buffer, the receive queue with its sticky close, the connect future, the queue a server accepts
from, and the packets parked for a connection that does not exist yet. The objects keep the source's fields and loops; theorems about
whole runs are about the functions the objects are proved against.

**Formats** (`Signaling`, `Discovery`, `Crypto`, `Utf8`, `Lan`, `Lines`, `SdpEdits`,
`MessageSize`, `Identity`, `Base64Url`, `Assertions`, `Numerals`). The signaling text, the discovery
packets, the sealed datagram, the LAN transport that stacks them, the line edits of an SDP, and the
signed identity. AES, HMAC, ECDSA and JSON appear as functions with the laws stated in
`Crypto.Suite.Lawful`, `Assertions.Lawful` and `Assertions.Readable`; PKCS#7, UTF-8, base64url,
decimal and fixed-width numbers and line splitting (with every separator and white-space character
Python knows) are concrete.

Quantities that a proof needs and the code does not keep are recorded beside the state: messages
sent, callbacks fired, candidates arrived and applied, packets accepted, outcomes of `recv()`.

## What the proofs found

- A state written after an await overwrites a close that happened in between. A remote CONNECTERROR
  that arrives while a listener creates its answer closes it; the answer is sent all the same, the
  session waits again, and its timeout closes it a second time (`Races.CloseInWindowIsUndone`). When
  a later request has used the id again by then, that second close takes the living session off
  the map (`Races.SuccessorIsUnmapped`). CLOSED is absorbing exactly when no such write resumes, the
  lifecycle climbs exactly when every such write finds its window quiet, and every living session
  is mapped exactly when no such write meets a closed session and no dialer id is drawn twice.
- In the same situation the first handler takes the candidates parked for the new session, which
  never gets them (`Races.ParkedCandidateIsStolen`).
- The same CONNECTREQUEST delivered twice before its offer is applied makes two candidate flushes
  overlap, and a candidate is then given to the ICE library twice
  (`Races.TwoRequestsDoubleACandidate`). A listener gets each candidate it is owed once, and applies
  each once, exactly when no other handler takes its list and no two flushes overlap.
- A packet delivered after its connection was closed is parked and given to the next connection with
  the same id (`EndToEnd.LatePacketIsInherited`).
- An SDP that names the max-message-size attribute without a value stays without one, and an
  attribute inserted after an SCTP port line that ends the text unterminated is glued to that line.
- A signaling text longer than 1140 bytes is cut without notice and never arrives as the message
  that was sent.
- An identity inserted into an SDP with no media line and an unterminated last line is glued to
  that line and cannot be extracted again (`Identity.GluingHappens`).
- The comment at `src/nethernet/transport/framing.py:21` speaks of up to 256 fragments; the limit
  the code enforces is exactly 255 full fragments, with first header 254.

## Model

| member | source | states |
|---|---|---|
| Sessions.TimerMatchesPhase | src/nethernet/session.py:209-217 | In every run a timeout is armed exactly in OFFER_SENT (code 14), NEGOTIATING and ANSWER_SENT (code 15) |
| Sessions.NegotiationIsBounded | src/nethernet/session.py:84-151 | With timeout T and a punctual clock, a session is CONNECTED or CLOSED once 2T have passed since its offer, and has left OFFER_SENT and ANSWER_SENT once T has |
| Sessions.LifecycleClimbsIff | src/nethernet/session.py:84-187 | A run never steps back in IDLE < OFFER_SENT < NEGOTIATING < CONNECTED < CLOSED (listener: IDLE < ANSWER_SENT < CONNECTED < CLOSED) if and only if every state written after an await finds its window quiet |
| Sessions.ClosedIsAbsorbingIff | src/nethernet/session.py:219-229 | A closed session stays CLOSED if and only if no handler resumes that writes its state after an await |
| Sessions.ClosedStaysClosed | src/nethernet/session.py:219-229 | Until such a resumption a closed session sends nothing and fires no callback |
| Sessions.LateAnswerReopens | src/nethernet/session.py:143-151 | On session events: a remote error inside a listener's answering window is overwritten, the window was not quiet, and on_close fires twice |
| Sessions.QuietLifecycle | src/nethernet/session.py:84-229 | With quiet windows the state changes at most four times (listener: three), on_open and on_close fire at most once, and on_open never follows on_close |
| Sessions.CloseErrorTellsWhy | src/nethernet/session.py:157-229 | In every run with quiet windows: a timeout closes a waiting session, with 14 in OFFER_SENT and 15 else; a failed transport closes with 32 exactly when on_open had fired, with 5 before; error 19 never closes a listener |
| Sessions.ClosesIff | src/nethernet/session.py:157-229 | In every run a session closes on exactly these events and with these errors: a close with its own, a remote error with its own unless 19 reaches a listener, a timeout with 14 or 15, a failed transport with 32 or 5, a closed one with 32 while connected; it notifies the remote exactly when asked to, and opens exactly when its channels do |
| Sessions.SendsExactly | src/nethernet/session.py:84-155 | A ready offer or answer sends the request or response with the SDP's other lines and then one CANDIDATEADD for each candidate, in order; out of band it sends nothing, and no other event sends anything but the notice of a close |
| Sessions.StepClimbsIff | src/nethernet/session.py:84-187 | One event keeps the role's phases, and lowers the level exactly when it is a late write whose window was not quiet |
| Engine.Session.constructor | src/nethernet/session.py:70-87 | A new session is idle, with no timer, nothing sent and its own peer connection |
| Engine.Session.OfferReady | src/nethernet/session.py:84-103 | Resuming start() or offer(): the whole new session state; start() has sent the request and then one message for each candidate, in order, and offer() nothing |
| Engine.Session.AnswerReady | src/nethernet/session.py:113-151 | Resuming answer() or the request handler: the whole new session state; the handler has sent the response and then one message for each candidate, in order, and answer() nothing |
| Engine.Session.HandleResponse | src/nethernet/session.py:136-141 | Only OFFER_SENT accepts an answer; the rest of the state is as the step function says |
| Engine.Session.HandleSignal | src/nethernet/session.py:122-134 | Which message changes the session how, and which one starts applying a description, by role and state |
| Engine.Session.SendCandidates | src/nethernet/session.py:153-155 | One CANDIDATEADD per candidate, in order |
| Engine.Session.HandleConnectError | src/nethernet/session.py:157-165 | Error 19 leaves a listener alone; every other error closes without notifying the remote |
| Engine.Session.HandleChannelsOpen | src/nethernet/session.py:169-175 | CONNECTED once, timer cancelled, on_open fired; nothing when connected or closed |
| Engine.Session.HandleConnectionState | src/nethernet/session.py:177-187 | The close code by transport state and phase |
| Engine.Session.Close | src/nethernet/session.py:219-229 | State, timer, notification and on_close of the first close; nothing on a later one |
| Engine.Session.ArmTimeout | src/nethernet/session.py:209-217 | The timer replaces any earlier one |
| Engine.Session.Send | src/nethernet/session.py:195-199 | True exactly for an accepted packet on a CONNECTED session; then its fragments extend the right channel and no other |
| Engine.SessionManager.Connect | src/nethernet/session_manager.py:53-57 | The new manager state: session, route and suspended start() |
| Engine.SessionManager.HandleSignal | src/nethernet/session_manager.py:59-75 | The new manager state for every text: parsing, routing, creation of a listener, parking |
| Engine.SessionManager.BufferPendingCandidate | src/nethernet/session_manager.py:77-80 | A candidate without a session is parked, up to 64 per id |
| Engine.SessionManager.AnswerCreated | src/nethernet/session_manager.py:66-69 | With the first answer the parked candidates are taken, and the first of them reaches the session in the same stretch |
| Engine.SessionManager.CandidateReplayed | src/nethernet/session_manager.py:82-84 | The other parked candidates reach the session one by one, in order, until it is closed |
| Engine.SessionManager.SessionClosed | src/nethernet/session_manager.py:109-112 | A closing session's id leaves the map, once |
| Engine.SessionManager.CreateSession | src/nethernet/session_manager.py:86-103 | A fresh session routed under its id |
| Engine.SessionManager.CandidateApplied | src/nethernet/transport/peer_connection.py:186-190 | One turn of the flush loop, and where its coroutine suspends next |
| Engine.SessionManager.Resume | src/nethernet/session.py:84-151 | Every resumption of a suspended coroutine does what the manager's step function says |
| Engine.SessionManager.External | src/nethernet/session.py:169-229 | Transport callbacks, timer and closes, with the map kept up to date |
| Engine.SessionManager.RoutesAreSound | src/nethernet/session_manager.py:53-112 | Between any two methods the routing invariant holds of the object, whatever calls led there |
| Engine.SessionManager.TimersMatch | src/nethernet/session.py:209-217 | Between any two methods each session object has its timeout armed exactly while it waits |
| Managers.MStepWellFormed | src/nethernet/session_manager.py:53-112 | Routes and coroutines always refer to sessions of the fitting role |
| Routing.StepTouchesOneSession | src/nethernet/session_manager.py:59-112 | Every manager event runs one session event on one session at most, and leaves all others as they are |
| Routing.SessionsAreRuns | src/nethernet/session_manager.py:86-103 | Every session of a manager has lived a run of the session state machine, in its role |
| Routing.TimersMatchPhases | src/nethernet/session.py:209-217 | The timer invariant for every session of every manager run |
| Routing.CallbacksReach | src/nethernet/session_manager.py:100-112 | In every run of a manager the transport's callbacks, the timer and a close reach the session they are for and no other: it closes and leaves the map exactly when one of them closes it, and opens when its channels do |
| Routing.AllClimbIff | src/nethernet/session.py:84-229 | No step of a manager run takes any session back in its lifecycle if and only if every state written after an await finds its window quiet |
| Routing.QuietManagerLifecycle | src/nethernet/session.py:84-229 | In such a run every session of a manager fires on_open and on_close at most once each, in that order |
| Routing.RoutingInvariant | src/nethernet/session_manager.py:53-112 | In every run: a key is its session's id, no CLOSED session is mapped, at most 64 candidates are parked per id, and none for a mapped listener whose replay has begun |
| Mapping.LiveMappedIff | src/nethernet/session_manager.py:86-112 | Every session that is not CLOSED is mapped under its id after every event of a run if and only if no coroutine writes its state over a close and no new dialer gets an id in use |
| Mapping.LiveMappedStepIff | src/nethernet/session_manager.py:86-112 | From a state in which all living sessions are mapped, exactly those two kinds of step lose one |
| Mapping.RouteSurvivesIff | src/nethernet/session_manager.py:100-112 | A route survives a step and leads to the same session if and only if the step closes no living session of that id, mapped or not, and does not connect under it |
| Mapping.QuietMapIsTheLiving | src/nethernet/session_manager.py:86-112 | With quiet windows and unused ids for new dialers the map is exactly the sessions that are not CLOSED, each under its id |
| Conservation.NoCandidateBeforeDescription | src/nethernet/transport/peer_connection.py:166-190 | Under every interleaving no candidate is applied before a remote description |
| Conservation.ConservationIff | src/nethernet/transport/peer_connection.py:178-190 | Once no flush runs, the candidates applied are, as a multiset, those that arrived if and only if no two flushes of the session overlapped |
| Conservation.BooksKeep | src/nethernet/transport/peer_connection.py:186-190 | Each run balances its books: without overlap every arrived candidate is applied or still ahead of the flush; with one, some are applied too often |
| Arrivals.ParkedAreFirst64 | src/nethernet/session_manager.py:77-84 | In every run the candidates parked for an id are exactly the first 64 heard while it was not mapped, since its list was last taken |
| Arrivals.FirstOfItsId | src/nethernet/session_manager.py:77-80 | For an id no session ever had, those are all candidates heard for it |
| Arrivals.ListenerReceives | src/nethernet/session_manager.py:59-84 | From the request on, what a mapped listener has received and has still to replay is the first 64 unclaimed candidates plus every later one, or fewer once another handler took its list |
| Arrivals.ListenerAppliesWhatWasHeard | src/nethernet/session_manager.py:59-84 | For any mapped listener whose coroutines have finished, under an id used before or not: each candidate it is owed (the first 64 unclaimed when it was created and all heard since) arrived once and was applied once if and only if no other handler took its list and no two flushes overlapped; with either excluded, what was applied is what was owed exactly without the other |
| Arrivals.OneHandlerIsEnough | src/nethernet/session_manager.py:59-84 | A listener created while no other creating handler for its id is on its way, and handling one request at a time, applies exactly what it is owed |
| Arrivals.LivingListenerIsMapped | src/nethernet/session_manager.py:86-112 | The route these results ask for is there for every listener not CLOSED, in every run without a state written over a close and without a dialer id in use |
| Arrivals.OneDescriberAtATime | src/nethernet/session.py:143-151 | One request handled at a time means no two flushes overlap |
| Races.CloseInWindowIsUndone | src/nethernet/session.py:143-151 | A run on the texts of a request and an error: the closed listener sends its answer, waits again and closes a second time |
| Races.SuccessorIsUnmapped | src/nethernet/session_manager.py:109-112 | A run in which that second close takes the session that has the id by then, alive, off the map |
| Races.ParkedCandidateIsStolen | src/nethernet/session_manager.py:66-84 | A run in which the handler of a closed session takes the candidate parked for its successor, which never gets it although it is mapped and has answered |
| Races.TheftAndOverlapCancel | src/nethernet/session_manager.py:66-84 | A run in which a candidate taken and a candidate doubled make up for each other as a multiset, so the two conditions cannot be read off what was applied |
| Races.TwoRequestsDoubleACandidate | src/nethernet/session.py:143-147 | For every candidate text, a run in which a repeated request gives that candidate to the ICE library twice |
| Agreement.DialersAndListenersAgree | src/nethernet/session.py:84-151 | Among any number of peers on a network that loses, repeats, reorders and misdelivers texts and cuts those over 1140 bytes, with fresh dialer ids: a dialer sends at most one offer, applies at most one answer, and each answer was produced from that offer by a listener session with its connection id; answer and offer are what was sent, or a prefix when its text did not fit |
| Agreement.WorldsKeep | src/nethernet/session_manager.py:53-75 | The invariant behind it: every description applied or about to be applied was sent, or cut from one sent, by a session of the other role with that id |
| Agreement.HeardIsCut | src/nethernet/discovery/lan.py:131-192 | What a receiver parses from a sent text has its kind and id and a prefix of its data, and is the message itself when the text fits |
| Handshake.HandshakeCompletes | src/nethernet/session.py:84-175 | From every reachable world, for any two peers, any fresh id and any two SDPs whose texts fit: the request the dialer sends makes the listener answer, however many of the candidates come before the offer is applied, the answer connects the dialer, and each side has applied the other's description and all its candidates once, in order |
| Handshake.StartSends | src/nethernet/session.py:84-90 | Resuming start() sends the request and then the candidates, and waits with code 14 |
| Handshake.AnswerSends | src/nethernet/session.py:143-151 | Resuming the request handler sends the response and then the candidates, and waits with code 15 |
| Handshake.ValuesAreTheLines | src/nethernet/transport/peer_connection.py:59-103 | What the ICE library is given for the i-th candidate is what follows "a=candidate:" in the i-th candidate line of the SDP of the other side |
| Handshake.IdsAreDrawn | src/nethernet/session_manager.py:53-80 | In every run of the world, every id that some peer has a session or parked candidates for was drawn by a dialer: no one knows an id before |
| PeerConnections.StreamRefinement | src/nethernet/transport/peer_connection.py:230-274 | Over every interleaving of pushes, registrations, openings, registrations of open channels, in-order reliable deliveries and arbitrary unreliable arrivals, the reliable packets received are a prefix of those accepted, and all of them once the channel has opened and drained |
| PeerConnections.UnreliablePacketsAreWhole | src/nethernet/transport/framing.py:77-81 | Every accepted unreliable packet is handed to the open channel once, in order; every arrival gives its packet unaltered, and each was accepted |
| PeerConnections.ChannelsOpenOnce | src/nethernet/transport/peer_connection.py:210-251 | In every run a channel is open exactly when it was open at its registration or has opened since, and on_channels_open has been called exactly once when both are, and not before |
| PeerConnections.RegisteringKeeps | src/nethernet/transport/peer_connection.py:210-228 | A channel registered open is open at once, what was deferred for it has been handed over in order and nothing is deferred any more; registered closed it keeps what is deferred |
| PeerConnections.MessagesFit | src/nethernet/transport/peer_connection.py:41-56 | In every run each message on either channel has 1 to 262144 bytes, the advertised limit |
| PeerConnections.CandidateIsUnprefixed | src/nethernet/transport/peer_connection.py:93-104 | The prefix "candidate:" comes off, once, and a text without it is taken as it is |
| PeerConnections.PeerConnection.RegisterChannel | src/nethernet/transport/peer_connection.py:210-228 | The whole state of both channels; one already open when registered is opened, and what was pending for it is sent at once |
| PeerConnections.PeerConnection.HandleChannelOpen | src/nethernet/transport/peer_connection.py:230-251 | The whole state of both channels after one opens |
| PeerConnections.PeerConnection.ChannelSend | src/nethernet/transport/peer_connection.py:267-274 | A fragment goes to an open channel or behind the pending ones |
| PeerConnections.PeerConnection.Send | src/nethernet/transport/peer_connection.py:200-202 | An accepted packet extends its channel by its fragments; a rejected one changes nothing |
| PeerConnections.PeerConnection.HandleChannelMessage | src/nethernet/transport/peer_connection.py:253-259 | What a channel message adds to the buffer and to the packets delivered or queued |
| PeerConnections.PeerConnection.Deliver | src/nethernet/transport/peer_connection.py:261-265 | Delivers every queued packet in order and terminates |
| PeerConnections.PeerConnection.AddRemoteCandidate | src/nethernet/transport/peer_connection.py:178-184 | A candidate, without its prefix, is applied once a description is set, and buffered before |
| PeerConnections.PeerConnection.FlushTurn | src/nethernet/transport/peer_connection.py:186-190 | One turn of the flush loop on the list as it is then |
| PeerConnections.PeerConnection.RemoteDescriptionApplied | src/nethernet/transport/peer_connection.py:166-176 | The description is recorded and the flush runs to its first await |
| Framing.FragmentationShape | src/nethernet/transport/framing.py:49-59 | An accepted packet becomes 1 to 255 fragments with headers n-1 down to 0, none over 262144 bytes, non-empty when several, whose payloads concatenate to the packet |
| Framing.MaxIsTight | src/nethernet/transport/framing.py:20-21 | The size limit is exactly 255 full fragments; one byte more would need 256 |
| Framing.AcceptsUpTo | src/nethernet/transport/framing.py:39-48 | Accepted are up to 255 * 262143 bytes on the reliable channel and up to 262143 on the unreliable one |
| Framing.FragmentsAreFull | src/nethernet/transport/framing.py:49-56 | Every fragment before the last is full |
| Framing.FragmentsReassemble | src/nethernet/transport/framing.py:67-75 | Receiving a packet's fragments emits the packet and leaves the buffer empty |
| Framing.PrefixReassembles | src/nethernet/transport/framing.py:67-75 | Any prefix of the fragments of a packet sequence emits a prefix of the packets, and all of them when complete |
| Framing.ReadsReassemble | src/nethernet/transport/framing.py:83-101 | Over any interleaving of arrivals and reads of any sizes, the pieces read and the queue make up the arrived packets in order, across no packet boundary |
| Framing.ReadTakesAll | src/nethernet/transport/framing.py:89-101 | A read gives as much of the head as asked for and dequeues it exactly when that is all of it |
| Framing.NoEmptyRests | src/nethernet/transport/framing.py:89-101 | In every run of arrivals and reads an empty packet is queued only if one arrived |
| Framing.ReadsMakeProgress | src/nethernet/transport/framing.py:89-101 | A read of at least one byte, or of the whole packet, shrinks the sum of (length + 1) over the queue |
| Framing.PacketQueue.Push | src/nethernet/transport/framing.py:39-63 | Accepts exactly the packets within the limits of their channel, and sends exactly their fragments |
| Framing.PacketQueue.OnReliableMessage | src/nethernet/transport/framing.py:67-75 | One step of reassembly |
| Framing.PacketQueue.OnUnreliableMessage | src/nethernet/transport/framing.py:77-81 | A non-empty message is one packet without its header |
| Framing.PacketQueue.Peek | src/nethernet/transport/framing.py:83-87 | The size of the head packet, if any |
| Framing.PacketQueue.Read | src/nethernet/transport/framing.py:89-101 | A prefix of the head or the whole head, and the queue that remains |
| Endpoints.ReceiveQueueIsSafe | src/nethernet/api.py:110-119 | In every run a queue is the packets not yet taken, then exactly one sentinel once closed; recv() gave the packets in order and raised only after the last, with the close error |
| Endpoints.DrainsThenRaises | src/nethernet/api.py:110-119 | On a closed connection n calls of recv() return what is left in order and then raise the same error every time |
| Endpoints.FutureIsSettledOnce | src/nethernet/api.py:151-174 | The connect future is settled at most once: successfully exactly when open came first, with the close error exactly when close came first |
| Endpoints.TimeoutCancels | src/nethernet/api.py:166-174 | In every run a connect timeout cancels the future of a connection that was neither opened nor closed, and changes nothing else |
| Endpoints.PacketsThenCloseError | src/nethernet/api.py:235-261 | Whatever happened before, under the same id too, and whatever other connections do: recv() yields the first 256 packets unclaimed when the connection was made, every one from then to its close, in order, and then the close error for ever |
| Endpoints.ParkedPackets | src/nethernet/api.py:254-261 | In every run the packets parked for an id are exactly the first 256 that arrived while it had no connection, since a connection last took them |
| Endpoints.AcceptedInOrder | src/nethernet/api.py:242-247 | In every run the connections handed to a handler and then those waiting to be accepted are exactly those made for a session that opened without one, in order, and none made by connect(); each is connected, and the accept loop has taken one each turn there was one |
| Endpoints.ArrivedExactly | src/nethernet/api.py:235-247 | That list, read off the events: strictly ascending, and a connection is on it exactly when a session's opening made it |
| Endpoints.RunKeeps | src/nethernet/api.py:235-261 | Open connections are unclosed with one id each, nothing is parked for them, and every connection's books balance |
| Connecting.ConnectIsSettled | src/nethernet/api.py:224-252 | With timeout T and a punctual clock, whatever happened while start() created the offer, a close included: once 2T have passed since the offer the connect future is settled, with what the session did first since start() returned unless the connect timeout cancelled it |
| Connecting.NotifiedKeeps | src/nethernet/session.py:169-229 | Each callback of the session reaches the connection it belongs to, which is mapped as long as the session lives |
| Connections.Connection.MarkConnected | src/nethernet/api.py:151-153 | Settles a pending future successfully |
| Connections.Connection.MarkClosed | src/nethernet/api.py:155-161 | Records the error, fails a pending future, queues the sentinel |
| Connections.Connection.Recv | src/nethernet/api.py:110-119 | Takes the head; the sentinel is put back and the error raised |
| Connections.Connection.Expire | src/nethernet/api.py:166-174 | A connect timeout cancels a pending future only |
| Connections.Endpoint.Register | src/nethernet/api.py:235-240 | A fresh connection gets the parked packets in order, which are parked no longer |
| Connections.Endpoint.QueuesAreSafe | src/nethernet/api.py:110-119 | Between any two methods each connection object of the endpoint has packets in its queue, then one sentinel once closed, whatever calls led there |
| Connections.Endpoint.ServesWhatArrived | src/nethernet/api.py:291-296 | Between any two methods the object's handled and waiting connections are those that arrived, in order, each with its future resolved |
| Connections.Endpoint.Accept | src/nethernet/api.py:291-296 | The accept loop takes the first waiting connection |
| Connections.Endpoint.OnSessionOpen | src/nethernet/api.py:242-247 | An unknown session becomes an incoming connection, queued for the accept loop; either way it is marked connected |
| Connections.Endpoint.OnSessionClose | src/nethernet/api.py:249-252 | The connection leaves the map and is marked closed |
| Connections.Endpoint.OnPacket | src/nethernet/api.py:254-261 | A packet is enqueued, or parked up to 256 per id |
| EndToEnd.ReceivedIsWhatWasSent | src/nethernet/api.py:104-119 | From send() to recv(), both channels, over every interleaving of the link with the endpoint's other events: recv() gives what the link emitted, in order, but at most 256 of the packets from before the connection, and then the close error; the reliable packets emitted are a prefix of those accepted, all once the channel had drained, and the unreliable ones were accepted |
| EndToEnd.NothingIsLostIff | src/nethernet/api.py:254-261 | Nothing emitted is lost exactly when at most 256 packets were waiting when the connection was made |
| EndToEnd.NothingIsStaleIff | src/nethernet/api.py:254-261 | Then the connection receives what its own link emitted and nothing else exactly when no packet was left over under its id |
| EndToEnd.LatePacketIsInherited | src/nethernet/api.py:249-261 | A concrete run in which a packet delivered after a close goes to the next connection with the id |
| Signaling.RoundTrip | src/nethernet/signaling/messages.py:28-130 | parse(serialize(m)) is m for every u64 id, every text and every integer error |
| Signaling.ReserializeExact | src/nethernet/signaling/messages.py:78-130 | serialize(parse(s)) is s exactly when the decimal tokens of an accepted s are canonical |
| Signaling.AcceptedIffSpelled | src/nethernet/signaling/messages.py:78-130 | A text is read as a message if and only if it is the message's word, its id in decimal digits within 64 bits, and its data, with single spaces between |
| Signaling.SerializedSpells | src/nethernet/signaling/messages.py:28-65 | What is sent is such a text, printed canonically |
| Signaling.TokenizeRejoins | src/nethernet/signaling/messages.py:86-94 | The three tokens joined by spaces are the text |
| Signaling.SignedRoundTrip | src/nethernet/signaling/messages.py:125-130 | Every printed integer parses to itself |
| Numerals.DecimalExact | src/nethernet/signaling/messages.py:78-83 | A digit string is what its value prints as exactly when it has no leading zero |
| Discovery.RoundTrip | src/nethernet/discovery/packets.py:44-109 | Parsing a serialized packet gives it with its payload cut to the cap; PacketLength is the byte length, at most 1172 |
| Discovery.TrailingIgnored | src/nethernet/discovery/packets.py:82-109 | Bytes after an accepted packet change nothing |
| Discovery.ReserializeExact | src/nethernet/discovery/packets.py:82-109 | Serializing what was read gives the datagram back exactly when it is canonical |
| Discovery.AcceptedIffLaidOut | src/nethernet/discovery/packets.py:82-109 | A datagram is read as a packet if and only if its fields are at their offsets, whatever its length field and pad hold and whatever follows |
| Discovery.SerializedLayout | src/nethernet/discovery/packets.py:44-79 | What is sent has those fields, its own length first and a zero pad |
| Crypto.OpenExact | src/nethernet/discovery/crypto.py:36-61 | open(e) is P if and only if e is seal(P) |
| Crypto.SealedLayout | src/nethernet/discovery/crypto.py:36-43 | Sealed bytes are the tag of the plaintext and then each 16 bytes of the padded plaintext encrypted by themselves |
| Crypto.SealedLength | src/nethernet/discovery/crypto.py:36-43 | The sealed length: 32 bytes of tag and the padded blocks |
| Crypto.UnpadPad | src/nethernet/discovery/crypto.py:39-40 | Padding is undone (section 6.3 of RFC 5652) |
| Crypto.PadUnpad | src/nethernet/discovery/crypto.py:53-57 | Only canonical padding is accepted |
| Utf8.DecodeEncode | src/nethernet/discovery/lan.py:182-190 | Strict UTF-8 decoding undoes encoding for every text |
| Utf8.DecodeExact | src/nethernet/discovery/lan.py:187-190 | Bytes are read as a text if and only if they are that text's encoding |
| Utf8.Widths | src/nethernet/discovery/lan.py:131-134 | The first and last characters of every width have the bytes of section 3 of RFC 3629 |
| Lan.MessageArrivesExactly | src/nethernet/discovery/lan.py:131-192 | The addressed peer reads back the very message sent if and only if its text has at most 1140 bytes of UTF-8 |
| Lan.SendThenReceive | src/nethernet/discovery/lan.py:131-192 | One send_signal is one datagram of at most 1216 bytes; a peer with the same key hears the text exactly when addressed, and learns the sender's address |
| Lan.DiscoveryExchange | src/nethernet/discovery/lan.py:127-180 | A Request reaching an advertising host brings back its advertisement in one unicast Response; both sides learn the other's address |
| Lan.LongTextIsCut | src/nethernet/discovery/lan.py:131-134 | Of a longer text the peer hears nothing or a proper prefix |
| Lan.WireLength | src/nethernet/discovery/lan.py:140-147 | Every sealed datagram has at most 1216 bytes |
| Lan.PacketEffects | src/nethernet/discovery/lan.py:151-192 | All that any sealed packet does: a peer's own does nothing; of every other the sender's address is learned unless its id is 0, a request is answered to where it came from if there is an advertisement, a response is reported as a host, and an addressed, non-empty, well-formed text as a signal |
| Lan.ForgeriesDoNothing | src/nethernet/discovery/lan.py:151-160 | Bytes that are no seal of any plaintext change nothing |
| Lan.RepliesGoBack | src/nethernet/discovery/lan.py:131-147 | A reply goes to the address the peer was last heard from, and to the broadcast address as long as it was not heard |
| Lan.LanTransport.SendText | src/nethernet/discovery/lan.py:131-147 | Sends to the remembered address or the broadcast address, and nothing without a socket |
| Lan.LanTransport.DatagramReceived | src/nethernet/discovery/lan.py:151-192 | The whole new state for every datagram: rejected, own, request, response, message |
| Lan.LanTransport.RememberPeer | src/nethernet/discovery/lan.py:136-138 | The peer's address is replaced |
| SdpEdits.StripCandidates | src/nethernet/transport/peer_connection.py:59-76 | The remaining lines in order, and the candidates in order |
| SdpEdits.StripIsStable | src/nethernet/transport/peer_connection.py:66-76 | Run again on its output it changes nothing and finds no candidate |
| SdpEdits.StripDistributes | src/nethernet/transport/peer_connection.py:66-76 | The split works line by line: it distributes over any cut at a line boundary |
| SdpEdits.StripOfPlain | src/nethernet/transport/peer_connection.py:66-76 | An SDP without candidates is left as it is |
| SdpEdits.CandidatesLineByLine | src/nethernet/transport/peer_connection.py:66-76 | There is one candidate for each line whose stripped text starts with "a=candidate:", in order, and it is that text without "a=" |
| SdpEdits.RestLineByLine | src/nethernet/transport/peer_connection.py:66-76 | What is left is every line that is neither a candidate nor the end mark, in order |
| MessageSize.SetMaxMessageSize | src/nethernet/transport/peer_connection.py:46-56 | Replaces every value, or inserts one after each SCTP port line |
| MessageSize.SetMaxSettles | src/nethernet/transport/peer_connection.py:46-56 | Afterwards every value the SDP gives is the one asked for; the attribute is named exactly when it was or the SDP has an SCTP port |
| MessageSize.SetMaxGivesValueIff | src/nethernet/transport/peer_connection.py:46-56 | A value is given afterwards exactly when one was, or the attribute was not named at all and the SDP has an SCTP port |
| MessageSize.SettledIsFixed | src/nethernet/transport/peer_connection.py:46-56 | An SDP that gives this value wherever it gives one, and needs none inserted, comes back as it was: nothing but a differing value is touched |
| MessageSize.InsertedEndsAlike | src/nethernet/transport/peer_connection.py:54-55 | The inserted line ends as the port line before it does |
| MessageSize.NamedWithoutValue | src/nethernet/transport/peer_connection.py:48-49 | A concrete SDP that names the attribute and gets no value |
| MessageSize.InsertedLinesIff | src/nethernet/transport/peer_connection.py:50-56 | The inserted attributes are lines of their own between the lines there were if and only if the text does not end inside an SCTP port line |
| MessageSize.GluingHappens | src/nethernet/transport/peer_connection.py:50-56 | A concrete SDP whose port line swallows the attribute |
| MessageSize.LastValueWins | src/nethernet/transport/peer_connection.py:46-56 | Setting one value and then another is setting the other, on both paths: the edit is idempotent and touches nothing but the value |
| Lines.SplitConcat | src/nethernet/transport/peer_connection.py:68 | Line splitting distributes over concatenation at a line boundary |
| Lines.RemovalIsStable | src/nethernet/identity.py:256-262 | Removing lines is stable, even where it joins a "\r" to a "\n" |
| Lines.SplitExactly | src/nethernet/transport/peer_connection.py:68 | The lines make up the text, each has its one break at its end, and "\r\n" is never cut: this determines them |
| Lines.StripIs | src/nethernet/transport/peer_connection.py:69 | Stripping gives the text between any leading and trailing white space |
| Identity.ExtractIdentity | src/nethernet/identity.py:237-253 | The last identity's envelope and the other lines; the SDP itself without one; an error when malformed |
| Identity.InsertIdentity | src/nethernet/identity.py:265-277 | One identity line, with the SDP's newline, before the first media line or at the end |
| Identity.InsertedWhere | src/nethernet/identity.py:265-277 | The line is "a=identity:" and the envelope, right before the first line that starts with "m=", or at the end, and ends with "\r\n" exactly when the SDP has one |
| Identity.LastIdentityCounts | src/nethernet/identity.py:244-250 | The value is what follows "a=identity:" in the last line that starts so, stripped |
| Identity.StripLineByLine | src/nethernet/identity.py:256-262 | What is left is every line that does not start so, in order |
| Identity.InsertExtractExact | src/nethernet/identity.py:237-277 | Extracting after inserting gives back the SDP byte for byte and the envelope, if and only if the SDP had no identity and has a media line, is empty or ends with a line break |
| Identity.StripInserted | src/nethernet/identity.py:256-277 | Where the inserted line gets a line of its own, inserting is undone by stripping |
| Identity.GluedIsNotStripped | src/nethernet/identity.py:265-277 | Where it does not, stripping never restores the SDP |
| Identity.GluingHappens | src/nethernet/identity.py:275-277 | A concrete SDP that swallows its identity |
| Base64Url.DecodeEncode | src/nethernet/identity.py:58-66 | Unpadded base64url (section 5 of RFC 4648) is undone by the lenient decoder for every byte string, and uses no "." and no "=" |
| Base64Url.EncodesUrlSafe | src/nethernet/identity.py:58-59 | Only the letters of table 2 of RFC 4648, four for three bytes and no padding |
| Base64Url.JunkIsSkipped | src/nethernet/identity.py:62-66 | The decoder skips characters outside its alphabet wherever they stand |
| Base64Url.BothAlphabets | src/nethernet/identity.py:62-66 | It reads "+" and "/" as it reads "-" and "_" |
| Base64Url.KnownEncodings | src/nethernet/identity.py:58-59 | The vectors of section 10 of RFC 4648 for up to three bytes, and the letters "-" and "_" |
| Assertions.FingerprintEntries | src/nethernet/identity.py:77-86 | The fingerprints of an SDP, in order |
| Assertions.FingerprintsLineByLine | src/nethernet/identity.py:77-86 | One entry for each fingerprint line and for no other, in order |
| Assertions.FingerprintIs | src/nethernet/identity.py:84 | The algorithm is what comes before the first space, the digest all that follows it |
| Assertions.FingerprintsSurviveStrip | src/nethernet/identity.py:77-86 | Stripping identity lines changes no fingerprint |
| Assertions.RawIsExact | src/nethernet/identity.py:91-109 | The fixed-width form (section 3.4 of RFC 7518) verifies exactly when the signature it encodes does |
| Assertions.SizeIsTight | src/nethernet/identity.py:39-43 | A coordinate has the bytes that the field of its curve needs, 66 for P-521 |
| Assertions.VerifyIsEcdsa | src/nethernet/identity.py:115-140 | A JWS made for one SDP verifies for another exactly when ECDSA accepts its signature for the other's fingerprints |
| Assertions.SignThenVerify | src/nethernet/identity.py:115-140 | The signature verifies on the SDP obtained by inserting the identity and stripping it again |
| Assertions.TokenKeyOfSigned | src/nethernet/identity.py:175-197 | A self-signed token yields its signer's key |
| Assertions.SignedIdentityVerifiesIff | src/nethernet/identity.py:312-358 | Verifying a signed answer gives back the SDP, the domain and the signer's key, if and only if the SDP had no identity and the inserted line gets a line of its own |
| Assertions.VerifiedIffSigned | src/nethernet/identity.py:323-358 | Sound and complete: an SDP is accepted if and only if its last identity line holds an envelope whose token carries a key, has not expired and is signed by that key, and that key signed the SDP's fingerprints, every signature being one that ECDSA accepts for the named algorithm; returned are the SDP without its identity lines, the domain and the key |
| Assertions.MovedEnvelope | src/nethernet/identity.py:115-140 | The envelope made for one SDP and put into another is accepted exactly when ECDSA accepts its signature for the other's fingerprints, and refused otherwise |
| Assertions.TokenKeyIff | src/nethernet/identity.py:184-197 | A token yields a key exactly when it is three parts that carry that key, unexpired and signed by it |
| Assertions.FingerprintsIff | src/nethernet/identity.py:121-140 | The detached signature is accepted exactly when it is two parts around an empty one, and ECDSA accepts the signature for header and fingerprints |

## Left out

- Sockets, the HTTP client and server, broadcast loops and `Server` handler tasks: I/O. The HTTP path enqueues packets without checking for a close, so the receive-queue theorems are about the LAN path.
- aiortc, aioice, SCTP, DTLS and the STUN patch: events of the environment. Assumed are a reliable FIFO channel and a lossy, unordered one.
- AES, HMAC, SHA-256, key derivation and ECDSA: functions with their laws; the randomness of ECDSA is taken as fixed per key and message.
- JSON and the token's claims: functions with their laws; a claim set that overrides the signer's own key is outside `Assertions.SignedIdentityVerifiesIff`.
- Exceptions raised by library calls (a malformed SDP or candidate, a closed peer connection) and task cancellation: a coroutine that fails is one that never resumes.
- Sessions created while a manager shuts down, and `aclose` of managers, endpoints and connections.
- `relay_only` filtering, correlation ids, enum tables and network-id parsing: small or library-defined.
- Several channels with the same role, and a negative `max_size` in `read`: not what the callers do.
- Python's limit on the digits of `int()`: numbers are unbounded.
- The exact text a candidate must have to be read by the ICE library: `addIceCandidate` is taken to accept it.
- The objects of the engine hold their sessions in one sequence in creation order, and routes and coroutines refer to them by index; the model does not capture garbage collection of sessions nothing refers to.
- Agreement.DialersAndListenersAgree: dialer ids are assumed fresh in the whole world; the code draws 64 random bits.
- Handshake.HandshakeCompletes: progress is shown along one schedule for each number of early candidates; the network may lose any text, so not every schedule connects.
- Connections.Connection.Recv: waiting on an empty queue is not modelled; a call happens when an item is there.
- `Connection.send`: it ignores what `Session.send` returns, so an oversized packet is dropped without notice; only `Session.send` is modelled.
- MessageSize.SetMaxMessageSize: what `\d` matches beyond ASCII is a parameter.
