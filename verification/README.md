# agbridge: a verified model

agbridge lets a one-shot command-line client (the bridge) use a machine (the daemon) through a gateway
that relays frames between the two. Client and daemon speak through an end-to-end encrypted channel with
implicit message counters; the gateway authenticates both sides, keeps them apart by name and forwards what
it cannot read. This project models that system in Dafny and proves what it is meant to guarantee, for all
inputs, all interleavings and all runs.

Code that computes a value is a function; code that updates fields or loops is a class or a method proved
against such a function; code whose point is concurrency is a state machine whose events are the source's
steps at its locks, channels, contexts and connections, and the theorems are about every reachable state.

| files | what they hold |
|---|---|
| Proto, Handshake, Auth | the frame and Hello codecs and frame signing |
| Crypto, E2e | the cipher and MAC as assumptions that a concrete suite is shown to meet; the counters |
| Channel, Receiving, Guarantees | any number of senders, re-handshakes and failing writes; any relay; the theorems |
| EndToEnd, Endpoints, Daemon | through the gateway to the dispatched frames; the objects of both ends |
| Sessions, Gateway, GatewayRuns, GatewayCancel | registry, session table, writers and audit ledger under concurrent handlers |
| Tokens, Enroll | the token store with failing reloads, flushes and crashes; enrolment and the live index |
| Transfer, TransferRuns, FilesEndToEnd, ReadFile | files in both directions, alone, interleaved and over the channel |
| Audit, Walk, BgBuffer, EditFile | log rotation, the recursive listing, the bounded output buffer, string replacement |

What is assumed:

- Of the cryptography, `Crypto.Suite.Ideal` and, where lengths matter, `Expands`: unsealing inverts sealing and
  accepts nothing else, a ciphertext determines its key and nonce and has room for a 16-byte tag, and a MAC has
  32 bytes. `Crypto.IdealSuiteExists` shows that this can be met.
- Of a relay, that it cannot make up a message of a session whose key it does not have: it shows what was
  written, in any order and number, or payloads that are no message of any of the sender's sessions
  (`Receiving.Relayed`, `Receiving.Foreign`; `EndToEnd.Offered` for messages at the gateway).
- Of handshakes, that no two yield the same key (`Receiving.FreshKeys`, and the guard of `Channel.Install`).
- For completeness only, that a plaintext frame sent without a session does not happen to be a message of one
  (`Receiving.PlaintextIsForeign`).
- Of hashes of fresh random keys, that they are new; of ReqIDs of concurrent calls, that they differ.

JSON payloads are values that round-trip; paths, names, hashes and timestamps are numbers or strings that are
compared. What the operating system decides (short reads, failing calls, names of temporary files, when a
context is cancelled) is a parameter or a free choice.

Where the code and what its documentation or design says part ways, the model follows the code, and the
exact condition under which the promise holds is a lemma:

- A ReqID of exactly 2^16 bytes passes Encode but is framed with length 0 (`Proto.RoundTrip`).
- `sendInner` encrypts frames that are too long to be sent once sealed; such a message ends its session for
  that direction (`Guarantees.OversizedStopsSession`, `Guarantees.OversizedIsEncrypted`).
- A bridge can be sent one more frame after its deferred cancel, because Send looks at the context before it
  waits for the write lock (`GatewayCancel.AtMostOneAfterCancel`, `GatewayCancel.OneAfterCancelHappens`).
- A Send that overlaps a re-handshake is lost although it succeeds (`Guarantees.CompleteBetweenHandshakes`).
- A live lookup and the state disagree on a name exactly while its last enrolment was not saved, or was made
  before the enrolment server was attached to the live index (`Enroll.LiveMatchesState`,
  `Enroll.EnrolledTooEarly`).
- An oversized first record leaves an empty backup of the audit log (`Audit.OversizedFirstRecord`,
  `Audit.EmptyBackups`).
- One offset for two output streams skips bytes of the shorter one without reporting truncation
  (`BgBuffer.SharedOffsetSkips`). `Tail(n)` counts newlines, so an unterminated last line comes on top.
- "Exactly one occurrence must match" is decided by counting occurrences that do not overlap, which is the
  same for every body exactly when the old string does not overlap itself (`EditFile.CountOneMeansOnce`).

## Model

| member | source | states |
|---|---|---|
| Proto.Encode | internal/proto/frame.go:97-115 | Encode refuses a ReqID of more than 65536 bytes and a payload of more than 64 MiB, each with its error, and otherwise lays the frame out as version, type, ReqID and payload with big-endian lengths |
| Proto.Decode | internal/proto/frame.go:119-152 | the step-by-step parser computes the reference decoding, with the same error in the same place |
| Proto.DecodesExactly | internal/proto/frame.go:97-152 | Decode accepts bytes as a frame if and only if they start with that frame's layout and its fields fit |
| Proto.RoundTrip | internal/proto/frame.go:97-152 | a frame Encode accepts comes back, whatever follows it, if and only if its ReqID is shorter than 2^16 bytes |
| Proto.StrictPrefixIsShort | internal/proto/frame.go:119-152 | every strict prefix of an encoded frame is rejected as short, and as nothing else |
| Proto.PrefixFree | internal/proto/frame.go:97-152 | no encoding begins another one: a byte stream splits into frames in one way |
| Handshake.Encode | internal/handshake/handshake.go:29-48 | Encode refuses fields that do not fit their length byte (or two, for the secret) and otherwise gives the layout |
| Handshake.LayoutFields | internal/handshake/handshake.go:29-48 | an encoded Hello is role, name, secret and target in this order, each behind its length in one byte, in two big-endian ones for the secret |
| Handshake.DecodeHello | internal/handshake/handshake.go:51-88 | the parser with its advancing offset computes the reference decoding |
| Handshake.DecodesExactly | internal/handshake/handshake.go:29-88 | DecodeHello accepts bytes as a Hello if and only if they start with its layout and its fields fit |
| Handshake.RoundTrip | internal/handshake/handshake.go:29-88 | whatever Encode accepts comes back, with any suffix, and every strict prefix is rejected as malformed |
| Auth.SignFrame | internal/auth/hmac.go:20-28 | the signed frame is the frame followed by its tag |
| Auth.VerifiesExactly | internal/auth/hmac.go:20-45 | verification succeeds with a frame if and only if the bytes are what signing that frame under that key gives |
| Crypto.IdealSuiteExists | internal/e2e/session.go:3-30 | the assumptions made of cipher and MAC, the lower bound on the length of a ciphertext among them, are consistent: a suite that meets them all is constructed |
| E2e.Session.Encrypt | internal/e2e/session.go:32-34 | the message is sealed under the current nonce, which advances by one on success only |
| E2e.Session.Decrypt | internal/e2e/session.go:43-45 | the message is opened under the current nonce, which a failed attempt does not move |
| E2e.OpensOnlyInStep | internal/e2e/session.go:32-45 | a receiver opens what a sender sealed if and only if key and counter agree, and then stays in step; otherwise it does not move |
| Channel.StepKeepsInv | internal/cliclient/router.go:148-178 | every step of every sender, re-handshake or disconnect keeps: distinct session keys, one message in flight and only for the holder of sendMu, and a wire that holds exactly the sealed messages recorded as sent |
| Channel.ReachableInv | internal/cliclient/router.go:148-178 | the invariant holds in every reachable state, for any number of senders in any interleaving |
| Receiving.UnwrapsExactly | internal/cliclient/router.go:182-204 | a payload is unwrapped in a session if and only if it carries the session's id and the message sealed under its key and current nonce |
| Receiving.RelayedIsWritten | internal/cliclient/router.go:182-204 | anything a relay can show that unwraps under a session's key at a nonce is the message that was sent with that nonce |
| Receiving.CounterIsAccepted | cmd/agbridge/daemon.go:377-402 | the receiving counter is the number of plaintexts accepted in the session; rejected payloads do not move it |
| Receiving.AcceptedIsPrefix | cmd/agbridge/daemon.go:377-402 | under the sender's invariant a receiver's plaintexts in one session are the first messages of that session, through any relay |
| Receiving.WindowExact | cmd/agbridge/daemon.go:377-402 | of a stretch of the wire that arrives in order between a session's handshake and the next, exactly the session's messages in a row from 0 are accepted, whatever comes before and after |
| Receiving.FifoExact | cmd/agbridge/daemon.go:377-402 | over a wire handed on in order, the receiver accepts exactly the messages up to the first that was never written; those of other sessions are rejected in passing |
| Guarantees.Safety | internal/cliclient/router.go:148-204 | in every interleaving of senders, re-handshakes and failing sends, and for every relay that drops, repeats or reorders, what a receiver accepts in a session is a prefix of what was encrypted, in order |
| Guarantees.Complete | internal/e2e/session.go:12-20 | over a lossless relay a drained wire means that everything encrypted was accepted if and only if no Send failed after its Encrypt |
| Guarantees.CompleteBetweenHandshakes | cmd/agbridge/daemon.go:389-400 | with handshakes anywhere: what is accepted in a session comes from the stretch of the wire between its handshake and the next, is everything encrypted if and only if every message is in that stretch, and ends before the first message that is not |
| Guarantees.FailedSendStopsSession | cmd/agbridge/daemon.go:348-370 | once a Send fails after its Encrypt, no message from that one on is ever accepted, in any continuation and through any relay |
| Guarantees.LostStaysLost | internal/transport/wss/conn.go:115-126 | a message that was not written is never written later, in any run |
| Guarantees.WireOrder | cmd/agbridge/daemon.go:353-370 | every sealed payload on the wire pairs id and key of one installed session, and each session's nonces appear in strictly increasing order, across any re-handshakes |
| Guarantees.OversizedIsNeverSent | internal/transport/wss/conn.go:115-126 | a message that is on the wire left room for sid, tag and MAC |
| Guarantees.OversizedStopsSession | internal/cliclient/router.go:148-178 | a frame that Encode takes but that is too long once sealed ends its session in that direction: nothing from it on is ever accepted, through any relay |
| Guarantees.OversizedIsEncrypted | internal/cliclient/router.go:164-177 | every such frame does get encrypted: a state is reached in which its nonce is spent and its Send has failed |
| Guarantees.OversizedExists | internal/proto/frame.go:97-115 | there are such frames, for every overhead |
| Guarantees.LockIsNeeded | internal/cliclient/router.go:154-157 | without sendMu there is, for any two frames, a run in which both Sends succeed over a perfect relay and only the first is accepted |
| EndToEnd.HopIsTransparent | internal/gateway/server.go:218-236 | a payload the bridge can frame reaches the daemon unchanged through signing, framing, the gateway's check and re-wrap |
| EndToEnd.HopForwardsOnlySigned | internal/gateway/server.go:225-236 | the gateway forwards nothing but payloads that came in under the bridge's own MAC |
| EndToEnd.DispatchedExactly | cmd/agbridge/daemon.go:246-255 | dispatched frames equal the encrypted ones, field for field, if and only if every ReqID is shorter than 2^16 bytes |
| EndToEnd.DispatchIsPrefix | cmd/agbridge/daemon.go:237-259 | from Route payloads on, for any relay: the dispatched frames of a session are a prefix of the frames given to sendInner, and reach no further than the first failed Send |
| EndToEnd.DispatchThroughGateway | internal/gateway/server.go:218-236 | through all layers: whatever messages reach the gateway, as long as only the bridge puts the session's payloads under its MAC, the frames the daemon dispatches in a session are a prefix of the frames given to sendInner |
| EndToEnd.DispatchIsComplete | cmd/agbridge/daemon.go:237-259 | through a gateway that relays every message, the daemon dispatches exactly the frames up to the first failed Send |
| Endpoints.Conn.Send | internal/transport/wss/conn.go:115-126 | a frame is appended to what is written if and only if the context lives, the frame encodes and the write succeeds |
| Endpoints.SendInnerIsOnePass | internal/cliclient/router.go:148-178 | a sendInner that is not interrupted has the effect of one pass of a sender through the state machine, with a session and without: the same payload, the same wire, the same counter |
| Endpoints.PlainFrameIsRead | internal/cliclient/router.go:182-204 | without a session the bridge's read loop finds in a Route frame the frame the daemon put there, if and only if its ReqID is shorter than 2^16 bytes |
| Daemon.PlainFrameIsDispatched | internal/cliclient/router.go:148-178 | without a session a frame goes from the bridge's sendInner through the gateway's check to the daemon's dispatch unchanged, if and only if its ReqID is shorter than 2^16 bytes; a daemon in mode required dispatches nothing of it |
| Endpoints.Router.SendInner | internal/cliclient/router.go:148-178 | with a session, what is written is a Route frame around the signed session id followed by the frame sealed under the sending key, its counter and that id, and the counter is one higher; without one, a Route frame around the signed plain frame; otherwise nothing, and the error is returned |
| Endpoints.Router.DecodeInbound | internal/cliclient/router.go:182-204 | the result and the new receiving state are those of the receiving fold for one payload; without a session the frame is decoded as it is |
| Endpoints.Router.InstallSession | internal/cliclient/router.go:137-142 | session and id are replaced together |
| Endpoints.Router.ReplaceConn | internal/cliclient/router.go:121-133 | every call in flight is abandoned, and session and id are forgotten with the connection |
| Endpoints.Router.RegisterCall | internal/cliclient/router.go:254-260 | a call gets an empty queue of its own |
| Endpoints.Router.UnregisterCall | internal/cliclient/router.go:262-266 | exactly that call's queue is gone |
| Endpoints.Router.OnFrame | internal/cliclient/router.go:228-250 | one frame advances the receiving state and reaches the queue of its ReqID or none; an eviction notice is remembered |
| Endpoints.Router.RunReader | internal/cliclient/router.go:219-252 | over any list of frames between two registrations, each queue receives exactly the accepted frames with its ReqID, in order of arrival |
| Endpoints.Router.RunAmongCalls | internal/cliclient/router.go:219-266 | the same while calls register and unregister in between: every queue is what the interleaving makes of it |
| Endpoints.QueueSinceRegistered | internal/cliclient/router.go:219-266 | a call's queue holds exactly the accepted frames with its ReqID that came since it registered, in order, whatever other calls do |
| Daemon.HexRoundTrip | cmd/agbridge/daemon.go:413-418 | the session id a bridge sends as hex in a ReqID is the one the daemon installs |
| Daemon.DaemonState.SendInner | cmd/agbridge/daemon.go:342-371 | as on the bridge, unsigned: session id and sealed frame with the counter one higher, or the plain frame without a session, written if the context lives and the write succeeds and lost otherwise |
| Daemon.DaemonState.UnwrapRoute | cmd/agbridge/daemon.go:377-402 | with a session a payload is taken if and only if it starts with the session id and the rest opens under the receiving key, its counter and that id, and only then the counter moves; without one it is taken as it is, and refused exactly in mode required |
| Daemon.DaemonState.HandleNoiseInit | cmd/agbridge/daemon.go:408-451 | for an 8-byte id in hex and a completing handshake a new session is installed if and only if the mode is optional with an empty list, or the mode is not disabled and the peer is on the list, and then NoiseResp is the answer; in every other case the session stays and the answer is the opaque error |
| Daemon.HexDecodesExactly | cmd/agbridge/daemon.go:413-418 | a ReqID decodes to an id if and only if it is its hex form, in either case of the letters |
| Daemon.NegotiatedExactly | cmd/agbridge/daemon.go:408-470 | who gets a session: an initiator on the list, or anyone in mode optional without a list; nobody when encryption is off or required without a list |
| Daemon.DaemonState.OnMessage | cmd/agbridge/daemon.go:237-259 | one message of the read loop: which frame is dispatched, how the receiving side moves, and what the loop itself answers |
| Daemon.RunDaemonSession | cmd/agbridge/daemon.go:222-260 | over any list of messages the loop dispatches exactly what the receiving fold of the connection gives |
| Daemon.SessionsAreOpened | cmd/agbridge/daemon.go:237-259 | whatever session the read loop holds after any messages was opened by one of them, from an admitted peer |
| Daemon.OpensSession | cmd/agbridge/daemon.go:408-451 | every such message opens a session at counter 0 whatever the loop held, and no other message changes id or key |
| Sessions.SessionTable.Register | internal/gateway/sessions.go:34-45 | the session is entered under an id never used before |
| Sessions.SessionTable.Release | internal/gateway/sessions.go:40-44 | the release closure removes its own id and nothing else |
| Sessions.SessionTable.ReplaceByRoleName | internal/gateway/sessions.go:55-74 | one session of the same identity is dropped if there is any, its connection handed back, and the new one entered under a fresh id |
| Sessions.SessionTable.Revoke | internal/gateway/sessions.go:87-114 | exactly the connections whose credential is gone or changed are closed, and the table is left to their handlers |
| Sessions.Registry.Register | internal/gateway/registry.go:73-81 | the first daemon to come keeps the name; a second one is refused and changes nothing |
| Sessions.Registry.Unregister | internal/gateway/registry.go:84-88 | the name is free afterwards and every other entry is as it was |
| Sessions.Registry.Lookup | internal/gateway/registry.go:91-96 | the registered proxy if there is one |
| Sessions.DaemonProxy.SetWriter | internal/gateway/registry.go:41-45 | installing or clearing a proxy's writer is one change to the table of writers that the handlers share |
| Gateway.ControlStep | internal/gateway/server.go:115-251 | at every point of a handler the deferred actions are exactly those it has passed, in the order of their defer statements |
| Gateway.RegistryStep | internal/gateway/registry.go:73-88 | every step keeps: a name is registered to a handler exactly while that handler has its Unregister pending |
| Gateway.TableStep | internal/gateway/sessions.go:34-74 | every step keeps: entries belong to handlers that will release them, ids are not shared, only a bridge can lose its entry, and no two bridges of a name are in the table |
| GatewayRuns.LedgerStep | internal/gateway/server.go:133-140 | every step keeps the difference of auth_ok and conn_close records equal to the handlers between the two |
| GatewayRuns.DeliveryStep | internal/gateway/registry.go:41-57 | every step keeps: what each bridge got is what its daemon's Deliver calls sent to it, frame by frame |
| GatewayRuns.ReachableInv | internal/gateway/server.go:115-251 | all of the above hold in every reachable state of any number of handlers |
| GatewayRuns.NeverStuck | internal/gateway/server.go:115-251 | a handler that is not done has a step to take even if no connection fails: a frame in its read loop, its next action elsewhere |
| GatewayRuns.FinishesAlone | internal/gateway/server.go:115-251 | a handler whose read loop has ended runs all its deferred actions and is done, by its own steps alone and whatever the others do |
| GatewayRuns.UnregisterIsOwn | internal/gateway/server.go:122-128 | a registered name belongs to one live daemon handler, and the deferred Unregister removes that handler's own entry only |
| GatewayRuns.OneSessionPerName | internal/gateway/sessions.go:34-74 | in every reachable state the table has at most one bridge and at most one daemon of a name |
| GatewayRuns.ReleaseIsOwn | internal/gateway/server.go:176-179 | a release never removes another handler's session; that of a displaced bridge leaves the table as it is |
| GatewayRuns.LedgerBalances | internal/gateway/server.go:190-206 | for every role and name, auth_ok minus conn_close is the number of live handlers past authentication, and zero once all have returned |
| GatewayRuns.BridgeGetsSubsequence | internal/gateway/server.go:145-151 | a bridge is wired only to a daemon of the name it asked for, and what it is sent is a subsequence of that daemon's frames in order, each sent because its writer was installed when Deliver read it, and no frame goes to two bridges |
| GatewayRuns.LookupFindsTarget | internal/gateway/server.go:200-207 | in every reachable state a bridge's lookup finds a daemon if and only if a daemon handler of its target's name has its Unregister pending, and it exits otherwise |
| GatewayRuns.RelayedToTarget | internal/gateway/server.go:218-250 | in every reachable state each frame relayed upwards came from a bridge and went to a daemon of the name that bridge asked for |
| GatewayRuns.RelaysInOrder | internal/gateway/server.go:218-250 | a relay adds its frame, last, to what was relayed for its bridge and to no other bridge's, and a failing one ends the bridge's loop |
| GatewayRuns.SubscribeAndClear | internal/gateway/server.go:209-216 | a bridge installs its writer at its own proxy and clears that one only |
| GatewayRuns.DeliverDecides | internal/gateway/registry.go:41-57 | a frame goes on to the write if and only if Deliver read a writer whose context lives, and then reaches that bridge if and only if the write succeeds |
| GatewayCancel.AtMostOneAfterCancel | internal/gateway/server.go:211-216 | after its deferred cancel a bridge is sent at most one more frame, and only the one its daemon's handler had past the look at the context in Send |
| GatewayCancel.OneAfterCancelHappens | internal/transport/wss/conn.go:115-126 | that bound is met: from every state in which a bridge is served a run leads to such a late frame |
| GatewayCancel.SomeBridgeIsServed | internal/gateway/server.go:115-251 | such states are reached |
| Tokens.TokenStore.constructor | internal/gateway/tokens.go:64-74 | a store holds what was found in the file, and nothing if there was none |
| Tokens.TokenStore.Open | internal/gateway/tokens.go:64-74 | opening fails if and only if there is a file that cannot be read or parsed; a missing one is an empty store |
| Tokens.TokenStore.Issue | internal/gateway/tokens.go:77-124 | succeeds if and only if the role is bridge or daemon, a name is given, a bridge has a target, and the flush works; then memory and file hold an unused token with that role, name, policy and targets (a single target as a list of one) and the requested lifetime, or 15 minutes; the error otherwise |
| Tokens.IssuedIsConsumable | internal/gateway/tokens.go:77-152 | after a flushed Issue and through any run without a Consume of the token or a sweep late enough to take it, a working Consume succeeds if and only if it comes within the lifetime, and returns the requested role, name and targets |
| Tokens.TokenStore.Consume | internal/gateway/tokens.go:128-152 | succeeds if and only if the token is known, unused, not expired and gets flushed, and then it is used on disk; each error otherwise, with what it leaves behind |
| Tokens.TokenStore.GC | internal/gateway/tokens.go:176-189 | exactly the tokens used or expired longer ago than the retention go, and the others stay as they are |
| Tokens.SweepKeepsUsable | internal/gateway/tokens.go:176-189 | a sweep with a non-negative retention takes away no token that could still be consumed |
| Tokens.StepKeepsInv | internal/gateway/tokens.go:113-228 | every Issue, Consume, sweep, failed reload, failed flush and crash keeps: a consumed token is unused in neither copy, and copies hold only issued tokens unchanged |
| Tokens.ConsumedAtMostOnce | internal/gateway/tokens.go:128-152 | in every run no token is consumed twice, and each carries the role, name, targets, policy and expiry it was issued with |
| Tokens.ConsumedForGood | internal/gateway/tokens.go:202-228 | a successful Consume is on disk when it returns, and every later Consume of that token fails, through any failures and crashes |
| Enroll.HydrateGatewayState | cmd/agbridge/gateway.go:174-197 | the state gets the config's entries in order, keys unknown |
| Enroll.MergeGatewayState | cmd/agbridge/gateway.go:202-229 | state and config get exactly the prior entries whose names they lack, in order |
| Enroll.MergedFinds | cmd/agbridge/gateway.go:202-229 | after a merge every name of either state is found: as the config has it, and otherwise as the earlier state had it |
| Enroll.MergedUnique | cmd/agbridge/gateway.go:202-229 | a merge leaves unique names if and only if the list and what it adds have unique names |
| Enroll.CredRegistry.Replace | internal/gateway/credregistry.go:46-59 | the index is rebuilt from the lists, the last entry of a name winning |
| Enroll.IndexHasLast | internal/gateway/credregistry.go:46-59 | the index has exactly the names of the list, each with its last entry |
| Enroll.CredRegistry.AddAgent | internal/gateway/credregistry.go:64-71 | exactly that name's credential changes |
| Enroll.CredRegistry.AddDaemon | internal/gateway/credregistry.go:74-81 | exactly that name's credential changes |
| Enroll.CredRegistry.LookupAgent | internal/gateway/credregistry.go:29-34 | while the index is that of a list of unique names, a lookup gives the list's entry of the name, if any |
| Enroll.CredRegistry.LookupDaemon | internal/gateway/credregistry.go:37-42 | while the index is that of a list of unique names, a lookup gives the list's hash of the name, if any |
| Enroll.AdmitDaemon | internal/gateway/server.go:115-121 | a daemon is admitted if and only if its name is listed with the hash of its secret |
| Enroll.AdmitBridge | internal/gateway/server.go:154-165 | a bridge is admitted if and only if its name is listed with the hash of its secret and its target among the allowed; daemon_not_allowed is the answer only to the right secret |
| Enroll.EnrollServer.HandleEnroll | internal/gateway/enrollserver.go:120-216 | a bridge is refused if and only if some target has no entry with a key, the first such target named; a refused request changes nothing; an accepted one gives its name exactly the granted entry and leaves every other name, and reaches the live index if and only if there is one by then and the save works |
| Enroll.UpsertedFinds | internal/gateway/enrollserver.go:120-216 | after an upsert the name is found with its new entry and every other name as before |
| Enroll.UpsertedUnique | internal/gateway/enrollserver.go:120-216 | an upsert keeps names unique |
| Enroll.StartKeepsInv | cmd/agbridge/gateway.go:174-229 | hydrating, merging and indexing name-unique lists makes live index and state agree on every name |
| Enroll.LiveMatchesState | internal/gateway/enrollserver.go:120-216 | through any run of enrolments names stay unique, and a live lookup gives exactly the state's hash and allow list if and only if the name's last enrolment was saved and made while the live index was attached |
| Enroll.EnrolledTooEarly | cmd/agbridge/gateway.go:92-99 | an enrolment between the start of the listener and the attachment is granted and saved, but live lookups do not find it |
| Transfer.SplitContent | internal/cliclient/handlers_file.go:157-177 | the chunks of at most 64 KiB concatenate to the content, with the end mark on the last and no other, for empty content too |
| Transfer.SplitFile | internal/cliclient/handlers_transfer.go:99-132 | for any pattern of short reads the chunks of at most 1 MiB concatenate to the file, with the end mark on the last and no other |
| Transfer.SplitInline | internal/cliclient/handlers_transfer.go:85-97 | the inline chunks go out one by one, with the end mark on the last and no other |
| Transfer.PrefixReceivesExactly | internal/tools/writefile.go:43-70 | the receiving loop completes on a well-cut file's whole list of chunks and on no prefix of it, and then holds the file; it does complete unless the file is over the cap |
| Transfer.DrainDecides | internal/tools/writefile.go:43-70 | after any chunks without an end mark, over the cap means too big; otherwise a cancellation, a failing source (with the size so far) or the last chunk decides, and the last chunk completes with all the bytes in order |
| Transfer.Disk.Receive | internal/tools/writefile.go:43-70 | the loop over chunks, cancellation and source errors is the receiving fold, with the temporary file holding what was hashed; it stops at a failing write exactly when that write is reached |
| Transfer.Disk.WriteFile | internal/tools/writefile.go:26-85 | a well-cut file within the cap is put in place, over the cap it is refused as too big; success if and only if the stream completes within the cap and no file operation fails, and then exactly the destination changed, to exactly the bytes; every other outcome leaves every file as it was, with the code of what failed |
| Transfer.Disk.UploadChunks | internal/tools/upload.go:116-157 | after a success the destination has the stated digest and the stated length, if any; a well-cut file within the cap that states its own digest and size succeeds when nothing fails, a different digest is answered sha256_mismatch and only a different size size_mismatch, and then, as on every failure, no file changes |
| TransferRuns.PrefixWellSent | cmd/agbridge/daemon.go:295-328 | what arrives of interleaved transfers with distinct ReqIDs is again such an interleaving |
| TransferRuns.StepKeepsInv | cmd/agbridge/daemon.go:653-704 | every step of read loop and handlers keeps: slot and handler together hold the chunks that came in for their ReqID, temporary files are owned by one handler each, the other files are the initial ones with whole transfers written over them, and replies say what was done |
| TransferRuns.CommitIsExact | cmd/agbridge/daemon.go:661-682 | a rename puts in place exactly the bytes the bridge was given |
| TransferRuns.FilesAreWholeCommits | internal/tools/writefile.go:22-25 | in every reachable state, whatever destinations are shared, the files are the initial ones with whole transfers written over them, each at most once and exactly the successful ones; no temporary file is left when the handlers are done |
| TransferRuns.ExactOrUntouched | internal/tools/upload.go:113-157 | a transfer to a path of its own leaves it with exactly the sent bytes if it succeeded and as it was otherwise, at every moment of every interleaving |
| TransferRuns.CommitsExactlyWhenAccepted | cmd/agbridge/daemon.go:689-704 | no chunk of a live transfer is lost or reordered, and with all taken the rename goes ahead if and only if the file is within 10 MiB for a write, or within 1 GiB and of the stated digest and size for an upload |
| TransferRuns.FinishedAsStated | internal/tools/upload.go:149-164 | in every reachable state what an upload put in place has the digest and length its request states, and no finished transfer is over its cap |
| TransferRuns.RequestsAreServed | cmd/agbridge/daemon.go:295-328 | a handler runs for exactly the ReqIDs of the write and upload requests that the read loop has seen |
| TransferRuns.RepliesAreTrue | cmd/agbridge/daemon.go:680-687 | a FileComplete without an error code is written for exactly the transfers renamed into place, although a cancelled handler's has none either |
| FilesEndToEnd.ExactOrUntouched | cmd/agbridge/daemon.go:237-259 | the same over the encrypted channel, for any senders, any relay and any interleaving of handlers |
| FilesEndToEnd.LosslessTransferCommits | cmd/agbridge/daemon.go:653-704 | through a lossless relay with no failed Send, a transfer sent in full is accepted if and only if it is within the cap and as expected |
| FilesEndToEnd.ReportsExactly | internal/cliclient/handlers_file.go:179-213 | a write is reported as a success if and only if a FileComplete without an error code comes before any Error frame or undecodable one, an upload if and only if one comes first |
| FilesEndToEnd.ReportedSuccessIsExact | internal/cliclient/handlers_file.go:179-213 | over both directions of the channel: a write or upload that the bridge reports as a success has put exactly the bytes it was given in place |
| FilesEndToEnd.HandleRead | cmd/agbridge/daemon.go:639-651 | what is written of a read: nothing of the FileComplete once the read was cancelled |
| FilesEndToEnd.ReadIsExactOrFails | internal/cliclient/router.go:219-252 | a read or download over the encrypted channel, among any other calls, cancelled or not: success is reported if and only if all of it came through to the call's queue, the daemon succeeded and the slice is within both caps, and then the content is the slice |
| ReadFile.ReadFile | internal/tools/readfile.go:39-121 | for any pattern of short reads, success if and only if the slice is within both the caller's cap and a positive MaxSize, and then well-cut chunks of exactly the slice; otherwise a prefix of it within the cap and no end mark, with the code of what went wrong |
| ReadFile.Reassemble | internal/cliclient/handlers_transfer.go:224-290 | the bridge's loop over the frames of its ReqID, with those it skips and those that do not decode, is the gathering fold |
| ReadFile.SliceExactly | internal/tools/readfile.go:39-121 | the slice asked for is what the file has from the offset on, as many bytes as there are or as a positive limit allows |
| ReadFile.DoneExactly | internal/cliclient/handlers_file.go:46-83 | the handler ends with a FileComplete if and only if one comes with no Error frame and nothing undecodable before it and at most 10 MiB gathered by then, and then holds the chunks' bytes in order |
| ReadFile.ReadIsExactOrFails | internal/cliclient/handlers_file.go:46-83 | whatever prefix of what the daemon can write arrives, the handler reports success if and only if all of it came, the daemon succeeded and the slice is within the bridge's cap, and then the content is the slice |
| Audit.Writer.constructor | internal/audit/writer.go:39-58 | a writer on fresh files, or on what one with the same options left, accounts for the active file's size |
| Audit.Writer.Append | internal/audit/writer.go:64-83 | one record more in the history, with files and size as the specification gives them |
| Audit.Writer.RotateLocked | internal/audit/writer.go:87-103 | the descending renames shift every backup by one, drop the oldest beyond the limit and leave a fresh active file |
| Audit.KeepsASuffix | internal/audit/writer.go:64-103 | after any Appends, backups from oldest to newest and the active file are a suffix of the history in whole records; with both limits positive at most MaxBackups backups, and nothing dropped before all are in use, otherwise no rotation at all |
| Audit.KeepsFilesTight | internal/audit/writer.go:64-103 | a file exceeds MaxBytes only if it holds a single record, and each file's first record did not fit into the one before |
| Audit.EmptyBackups | internal/audit/writer.go:75-79 | a backup is empty only as the oldest one, left by an oversized first record, while nothing has been dropped; the active file only before the first record |
| Audit.OversizedFirstRecord | internal/audit/writer.go:75-79 | an oversized first record does leave an empty backup, and no other first record does |
| Walk.Enqueue | cmd/agbridge/cli_ls.go:102-112 | exactly the directories not seen before are queued, once each, in listing order and one level down |
| Walk.NewDirsInOrder | cmd/agbridge/cli_ls.go:102-112 | the new directories of a listing are exactly its unseen ones, those of earlier entries first |
| Walk.VisitsExactlyWanted | cmd/agbridge/cli_ls.go:72-115 | when the queue is empty the visited directories are exactly those within the depth, and the recorded depth of each is its distance from the root |
| Walk.Ls | cmd/agbridge/cli_ls.go:72-115 | on every finite graph of directories the walk ends; it fails if and only if a directory within the depth cannot be listed, and otherwise gives each of them once, with its entries, in order of distance |
| BgBuffer.Buffer.Write | internal/tools/bgexec.go:39-48 | the buffer holds the last min(cap, written) bytes of the stream |
| BgBuffer.Buffer.SinceOffset | internal/tools/bgexec.go:54-69 | the stream from the offset on, or, exactly if the offset precedes the last cap bytes, those and the truncation flag; the next offset is the length of the stream |
| BgBuffer.Buffer.Tail | internal/tools/bgexec.go:73-93 | for n > 0 the longest suffix of the retained bytes with at most n newlines |
| BgBuffer.PollingIsCompleteIffNotTruncated | internal/tools/bgexec.go:54-69 | over any interleaving of writes and chained polls, what was gathered is the stream up to the last poll if and only if no poll reported truncation |
| BgBuffer.TruncatedWhenOverrun | internal/tools/bgexec.go:39-69 | a poll is truncated if and only if more than cap bytes came since the one before |
| BgBuffer.SharedOffsetSkips | internal/tools/bgexec.go:297-306 | with one offset for two streams, the shorter one's next poll is complete if and only if nothing came or the offsets were equal, and the loss is not flagged |
| EditFile.OccurrencesAreLeftmost | internal/tools/editfile.go:25-42 | nothing matches between the chosen occurrences, before the first or after the last |
| EditFile.OccurrencesAreApart | internal/tools/editfile.go:25-42 | each chosen occurrence matches and none overlaps the next |
| EditFile.CountIsMaximal | internal/tools/editfile.go:107-108 | no other choice of occurrences that do not overlap is larger than the count |
| EditFile.MatchLines | internal/tools/editfile.go:25-42 | one entry per counted occurrence, the line it starts on, nondecreasing |
| EditFile.ReplaceIsExact | internal/tools/editfile.go:123-128 | putting the old string back gives the body, and the length is that of the body plus count times the difference of new and old |
| EditFile.PiecesAreFree | internal/tools/editfile.go:123-126 | replacing all leaves no piece between replacements that still holds the old string |
| EditFile.ReplaceOnce | internal/tools/editfile.go:127-128 | a single replacement changes the first match and nothing around it |
| EditFile.CountOneMeansOnce | internal/tools/editfile.go:52-57 | a count of one means exactly one occurrence, for every body, if and only if the old string does not overlap itself |
| EditFile.OverlappingPair | internal/tools/editfile.go:107-112 | for every old string that overlaps itself, a body in which it occurs twice and counts once |
| EditFile.Editor.EditFile | internal/tools/editfile.go:70-193 | success if and only if the file is there and within the cap, the old string is not empty and is counted once, or more often with replace_all, and no operation but the backup fails; it replaces exactly the counted occurrences; every error leaves the file and all others as they were (but for the backup just made), with the code of the first check or operation that fails |
| EditFile.Editor.PruneOldBackups | internal/tools/editfile.go:203-228 | the newest backups stay, as many as are to be kept, and exactly the others are removed |
| EditFile.EditedLength | internal/tools/editfile.go:123-128 | the length of an edited file, which no cap bounds |

## Left out

- TLS, certificate pinning, WebSocket framing, keepalive, the Noise handshake, SHA-256, JSON and base64: library code, replaced by the assumptions above.
- Command-line parsing, rendering of results, service installation, doctor probes: user interface.
- Subprocesses, signals, port forwarding, HTTP fetches (uploads with source `url` among them), regular expressions: calls into code that is not part of this model.
- Liveness of the daemon's read loop: a full slot whose handler has stopped taking blocks it; only safety is claimed.
- That a live bridge keeps its writer: a displaced bridge's deferred `SetWriter(nil)` can clear its successor's.
- That a NoiseResp precedes the Route frames of its session: `sendMu` is not held when it is sent.
- The capacity of the queues of calls in flight on the bridge: a full queue stops its read loop, which the order of what is delivered does not depend on.
- Failing appends of the gateway to its audit log: every record counts as written.
- Several processes sharing one tokens.json, and a reload of the gateway's configuration while enrolments go on: one process, and runs between two reloads.
- File modes, ownership and timestamps of rewritten files, and failing removals of temporary files; renames are atomic.
- The credential check inside the gateway's handlers: a handler of the model is past it; the check itself is in Enroll.
- What distinguishes the frames a bridge handler relays: Route and Noise frames are one step of the gateway machine, which records the frame; what becomes of a Route frame's payload on the way is in EndToEnd.
- Name clashes of temporary and backup files: the names that os.CreateTemp and the backup code make up are parameters, required to be unused or different from the destinations.
- What Glob and Stat report when old backups are pruned is a parameter, and equal modification times are ordered in one fixed way.
- Partial writes and failing renames of the audit log, and a change of its options between two openings.
- A directory tree that changes during the recursive listing.
- The local file of a download with a destination path, beyond its content: it is truncated first and filled as chunks arrive, so unlike a write on the daemon a failed download leaves a prefix in place.
- Recv of a connection: read loops are given the frames, or messages, up to the first Recv that fails.
- Checks of a call's arguments before it sends anything, such as the 10 MB limit on the content of a write.
