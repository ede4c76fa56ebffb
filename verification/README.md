# SLT verification

SLT is a VPN front door: one TCP port and one UDP port are shared between the VPN and an ordinary web
server, and a connection is the VPN's only if it carries a token that the web server's clients never
produce. This project models the parts of SLT whose correctness is not visible in any one function
and proves what they promise, over every input, every run and every interleaving.

| part | files | main results |
|---|---|---|
| ClientHello token and TCP classifier | `ClientHello.dfy`, `FlatParser.dfy`, `Classifier.dfy` | the incremental two-level reader computes "flatten the records, then parse"; each of its three answers has its exact condition and is never revised; sealed hellos are claimed in every framing; a token is good for one hello only |
| UDP-QSP sessions | `PacketNumber.dfy`, `ReplayWindow.dfy`, `RekeySpec.dfy`, `QspSession.dfy`, `MessageDelivery.dfy` | exact reach of truncated packet numbers; the bitmap window is the set of accepted numbers; no number is accepted twice and no nonce used twice; key rotation keeps up with in-order traffic exactly while each generation is entered from within the margin; an accepted packet decodes to the message sent |
| Session lifecycle | `Allowlist.dfy`, `Registry.dfy`, `Lifecycle.dfy`, `SessionManager.dfy`, `Supervision.dfy` | route-table soundness, manager and registry agreement, one shutdown reason per session, takeover that late cleanup cannot undo, nothing running after shutdown |
| Datagram batching | `Segments.dfy`, `UdpIo.dfy` | the send slab refines one packet per send over every run of failures; coalesced reads are split back |
| Message stream | `Framing.dfy` | independence of chunking, exact round trip, bounded buffer |
| Client runtime | `Backoff.dfy`, `ClientRuntime.dfy` | TUN handles are joined once, the client keeps reconnecting, every ending has its cause in the run, stopping takes at most three steps of the loop, the event stream is well formed, cancellation ends cleanly, delay range |
| UDP dispatch | `NatTable.dfy`, `QuicDispatch.dfy` | every datagram of every coalesced read meets one fate, a notification removes only its own reader's entry |

How the pieces relate:

- Code that updates buffers and tables in place is a class or a method with a loop, proved equal to a
  function on values (`Classify`, `Check`/`Accept`, `Opens`/`Opened`, `Register`/`Remove`/..., `Push`,
  `Parse`, `Touch`/`ReaderDone`). The laws are then lemmas about those functions and about runs of them.
- Concurrent parts are state machines whose steps are what happens under one lock or between two
  awaits. A run is any sequence of enabled steps, so a lemma about runs covers every interleaving.
- Answers of the surroundings are parameters: socket and TLS results, clocks, random numbers, whether
  a key could be derived. HMAC is an arbitrary function that may fail; sealed packets are opened only by
  the keys that sealed them.
- Unsigned 64-bit limits are modelled where the code meets them: session ids saturate, NAT tokens wrap,
  packet numbers and their windows are checked for overflow, the attempt counter saturates.

Where a property fails there is a lemma with the failing case and one that states exactly when the
property holds: `RekeySpec.EarlyReorderingLost` with `LateAcceptedExactly`, `RekeySpec.RotationMissed` with
`InOrderExactly` and `CutOffExactly`, `ClientHello.RetriedHelloUnverified` with `SealVerifies`,
`Registry.SharedAddressLosesRoute` with `RegisterKeepsIpsExactly` and `Manager.SoundExactlyIfInjective`,
`Registry.SaturationReached` with `SaturatedIdsCollide`,
`UdpIo.FailedYetDelivered` with `SendOutcome`, `NatTable.WrappedTokenRemovesOther` with
`DoneRemovesOwnEntry`.

`dafny verify dfyconfig.toml` checks everything (Dafny 4.11).

## Model

| member | source | states |
|---|---|---|
| ClientHello.Layout | slt-core/src/crypto/client_hello.rs:169-227 | a hello parses exactly if it is a complete ClientHello handshake message with a 32-byte session id, given byte by byte, and then its random and session id are at fixed places |
| ClientHello.MalformedExactly | slt-core/src/crypto/client_hello.rs:169-227 | every malformed hello is refused for its first defect, in the order of the message, and for no other |
| ClientHello.FillLegacySessionId | slt-core/src/crypto/client_hello.rs:126-154 | writes the whole token into the caller's buffer, or reports the error and leaves the buffer as it was |
| ClientHello.FillFailsExactly | slt-core/src/crypto/client_hello.rs:126-154 | each error of filling has its exact cause: the length of the buffer first, then the form of the hello, then the MAC |
| ClientHello.VerifyExactly | slt-core/src/crypto/client_hello.rs:97-110 | a hello is accepted exactly if it is well formed and both halves of its session id are the two tags; what the tags cover is in the next three rows |
| ClientHello.TokenBindsWholeHello | slt-core/src/crypto/client_hello.rs:229-245 | the token of one hello is good for another under every key if and only if they agree on every byte outside the session id; otherwise some key tells them apart |
| ClientHello.CandidateBindsRandom | slt-core/src/crypto/client_hello.rs:72-95 | two hellos get the same candidate half under every key if and only if their first 16 random bytes are equal |
| ClientHello.LabelsAsText | slt-core/src/crypto/client_hello.rs:22-24 | the two labels that keep the tags apart, letter by letter |
| ClientHello.TagsIgnoreSessionId | slt-core/src/crypto/client_hello.rs:229-245 | neither tag depends on the session id that is in the hello, so the token can be computed before it is placed |
| ClientHello.SealVerifies | slt-core/src/crypto/client_hello.rs:126-154 | placing the filled token makes the hello verify, if and only if the buffer did not already start with the candidate tag or already held the right claim tag |
| ClientHello.RefillKeepsToken | slt-core/src/crypto/client_hello.rs:142-146 | a second hello with the same random prefix, as after HelloRetryRequest, gets the token of the first one |
| ClientHello.RetriedHelloUnverified | slt-core/src/crypto/client_hello.rs:142-146 | a second hello with the retained token verifies if and only if its claim tag is that of the first, so not once it changes what the tag covers |
| FlatParser.Classify | slt-core/src/classifier.rs:79-86 | never Drop, and never Incomplete once the buffer has 8192 bytes; the three answers are exact in the rows below |
| FlatParser.ClaimExactly | slt-core/src/classifier.rs:88-158 | Claim exactly if the handshake payloads, concatenated, start with a complete hello that verifies and whose last byte is within the first 8192 wire bytes |
| FlatParser.IncompleteExactly | slt-core/src/classifier.rs:88-158 | Incomplete if and only if fewer than 8192 bytes have come, no foreign record has, and the payload so far can still become a verifying hello: right type, right session-id length, matching candidate half |
| FlatParser.PassedAtOnce | slt-core/src/classifier.rs:88-158 | a foreign record, or a payload that can no longer become a verifying hello, is passed on at once, before the hello is complete |
| FlatParser.OtherTrafficPasses | slt-core/src/classifier.rs:203-218 | five bytes that do not begin with a handshake record are passed on, whatever follows |
| FlatParser.EveryBufferIsFramed | slt-core/src/classifier.rs:175-218 | every buffer is whole records followed by part of a record or by a foreign one, so the three rows above cover every buffer |
| FlatParser.FlattenFramed | slt-core/src/classifier.rs:175-218 | flattening such a buffer gives the payloads and the part of the last one; it ends in Pass exactly if a foreign record follows |
| FlatParser.VerdictStable | slt-core/src/classifier.rs:79-158 | a verdict other than Incomplete is the verdict of every extension of the buffer |
| FlatParser.ChunkingIndependent | slt-core/src/classifier.rs:79-158 | any two reads of a stream that give a decision give the same one, that of the whole stream |
| FlatParser.FlattenWire | slt-core/src/classifier.rs:175-218 | flattening the wire form of any records, empty ones included, gives back their payloads |
| FlatParser.FramedHelloClaimed | slt-core/src/classifier.rs:79-158 | a verifying hello framed in any records within the ceiling has one position: every shorter read is Incomplete and every longer one is Claim, whatever follows |
| FlatParser.SealedHelloClaimed | slt-core/src/crypto/client_hello.rs:72-154 | sealing any well-formed hello and framing it in any records within the ceiling yields Claim |
| Classifier.RecordReader.ReadExact | slt-core/src/classifier.rs:175-201 | reads exactly the next bytes of the flattened stream across record boundaries, or stops with the stream's own verdict |
| Classifier.RecordReader.NextRecord | slt-core/src/classifier.rs:203-218 | steps over one record header, possibly of an empty record, without changing what remains of the flattened stream; a foreign record is the stream's Pass |
| Classifier.HandshakeReader.ReadExact | slt-core/src/classifier.rs:231-238 | as for records, within the announced message length |
| Classifier.HandshakeReader.ReadRemainingInto | slt-core/src/classifier.rs:240-252 | appends the rest of the message, no more, and leaves the reader at the wire position after its last byte |
| Classifier.ClassifyTcpClientHelloWithinLimit | slt-core/src/classifier.rs:88-158 | the two-level reader with its early exits computes the verdict of the flattened stream |
| Classifier.ClassifyTcpClientHello | slt-core/src/classifier.rs:79-86 | the classifier refines the flat parser on every buffer |
| Classifier.ClassifyStream | slt-server/src/tcp/classification.rs:60-171 | whatever the peeks see, a decision is the one for the whole stream, an empty peek is Drop, a failing one is reported, and all earlier peeks left it open |
| PacketNumber.PacketNumberLen | slt-core/src/crypto/udp_qsp/pn.rs:8-18 | the fewest bytes that hold the number, and never more than four |
| PacketNumber.ReconstructExactly | slt-core/src/crypto/udp_qsp/pn.rs:26-52 | the truncated number is reconstructed to the original if and only if the original is within half a window of the expected one, or the window is cut off by zero or the 64-bit limit |
| PacketNumber.AheadIdentified | slt-core/src/crypto/udp_qsp/pn.rs:8-52 | every number up to 2^31 ahead of the expected one is reconstructed from the bytes its sender writes |
| RekeySpec.EarlyReorderingLost | slt-core/src/crypto/udp_qsp/pn.rs:8-52 | once packet 137 has arrived packet 10 is reconstructed as 266 and refused, although the replay window would take it |
| Replay.ReplayWindow.CheckAndUpdate | slt-core/src/crypto/udp_qsp/session.rs:138-179 | the circular bitmap answers exactly as the set of all accepted numbers would, and becomes the bitmap of the new set |
| Replay.ReplayWindow.ExpectedPn | slt-core/src/crypto/udp_qsp/session.rs:127-132 | the least number above all accepted ones, or the initial one, short of the 64-bit limit |
| Replay.ReplayWindow.Advance | slt-core/src/crypto/udp_qsp/session.rs:138-179 | the bitmap of the accepted numbers stays so with the new largest one |
| Replay.SlideSlot | slt-core/src/crypto/udp_qsp/session.rs:138-207 | sliding the window clears exactly the bits whose numbers leave it |
| RekeySpec.StaysInStep | slt-core/src/crypto/udp_qsp/session.rs:437-478 | the receiver's key generation is that of its largest packet after every packet |
| RekeySpec.AcceptedOnce | slt-core/src/crypto/udp_qsp/session.rs:437-510 | in every delivery, with any reordering, loss, repetition and failing key derivation, no number is accepted twice |
| RekeySpec.NewExactly | slt-core/src/crypto/udp_qsp/session.rs:437-478 | a number ahead of all accepted ones is accepted exactly if it is of the receiver's generation, or of the next one when that starts within the margin and its keys can be derived |
| RekeySpec.InOrderExactly | slt-core/src/crypto/udp_qsp/session.rs:437-561 | in-order traffic with any losses is accepted completely if and only if it skips no generation and enters each from within the margin of its start |
| RekeySpec.RotationMissed | slt-core/src/crypto/udp_qsp/session.rs:512-533 | in-order deliveries that are cut off, by a gap before a rotation and by a missed generation; a gap of one packet less at the margin is kept |
| RekeySpec.LateExactly | slt-core/src/crypto/udp_qsp/pn.rs:8-52 | a number still in the replay window is identified if and only if it is above 255 or less than 128 behind |
| RekeySpec.LateAcceptedExactly | slt-core/src/crypto/udp_qsp/session.rs:437-510 | a late number the replay window would take is accepted if and only if it is above 255 or less than 128 behind, whatever the rotations |
| RekeySpec.InOrderAllAccepted | slt-core/src/crypto/udp_qsp/session.rs:437-561 | so traffic that never loses more than 8192 packets in a row is accepted completely, through any number of key rotations |
| RekeySpec.CutOffExactly | slt-core/src/crypto/udp_qsp/session.rs:512-533 | of numbers ahead of it in any order a receiver accepts none, and stays as it is, if and only if each is out of its reach |
| QspSession.OpenIntoExactly | slt-core/src/crypto/udp_qsp/session.rs:437-478 | a key set opens a packet exactly if it is of the same generation and the number is reconstructed |
| QspSession.PaddedReachesSample | slt-core/src/crypto/udp_qsp/keys/mod.rs:185-208 | padding is zeros after the payload, makes every packet reach its header-protection sample, is no longer than that, and never touches a message frame |
| QspSession.AnswerExactly | slt-core/src/crypto/udp_qsp/session.rs:494-561 | dropping the previous keys refuses nothing that the replay window would not refuse as well |
| QspSession.AcceptedOnceFromAnyone | slt-core/src/crypto/udp_qsp/session.rs:437-510 | whoever sealed the packets, in step or not, with whatever phase bits and failures, no number is accepted twice |
| QspSession.GenuineExactly | slt-core/src/crypto/udp_qsp/session.rs:437-561 | for a peer in step the answer to any packet is that of the rekey specification, and old keys are dropped only when of no use |
| QspSession.OpenedAsSealed | slt-core/src/crypto/udp_qsp/session.rs:494-510 | whoever sealed a packet, what is handed on has the number, phase and payload that were sealed |
| QspSession.NoRotationWhileRetaining | slt-core/src/crypto/udp_qsp/session.rs:437-533 | while the previous keys are retained no packet of a later generation is opened, whoever sealed it, and nothing changes |
| QspSession.PayloadArrives | slt-core/src/crypto/udp_qsp/session.rs:337-510 | what is opened begins with the payload that was sent, and is that payload from three bytes on |
| QspSession.RefusedExactly | slt-core/src/crypto/udp_qsp/session.rs:437-510 | for a peer in step each refusal has its exact cause: no keys, a repeated number, or a number that has left the window |
| MessageDelivery.PaddedExactly | slt-core/src/proto/message.rs:260-269 | what is found is the frame at the front of the buffer, and an error or a missing part is reported as such |
| MessageDelivery.PaddingIgnored | slt-core/src/proto/message.rs:260-269 | an encoded message followed by any padding decodes to the message |
| MessageDelivery.MessageArrives | slt-core/src/crypto/udp_qsp/session.rs:337-510 | every admissible message, padded and sealed, decodes to itself once its packet is accepted |
| QspSession.QuicQspSession.constructor | slt-core/src/crypto/udp_qsp/session.rs:266-292 | a fresh session in both directions |
| QspSession.QuicQspSession.MaybeRotateTxKeys | slt-core/src/crypto/udp_qsp/session.rs:481-492 | rotates up to the generation of the packet number, and fails exactly if a rotation is due and cannot be derived |
| QspSession.QuicQspSession.Send | slt-core/src/crypto/udp_qsp/session.rs:337-365 | the packet carries the padded payload, the next number, its generation and phase; it is sealed and reported under exact conditions; a number is used up exactly when something was sealed under it; every sealed packet is logged and no key and number are used together twice |
| QspSession.QuicQspSession.AcceptOpened | slt-core/src/crypto/udp_qsp/session.rs:494-510 | the window decides, and its refusals are reported |
| QspSession.QuicQspSession.PromoteCandidateRxKeys | slt-core/src/crypto/udp_qsp/session.rs:535-550 | threshold and phase are those of the next generation, and the old keys stay for one window past its start; a failing copy changes nothing |
| QspSession.QuicQspSession.MaybeConfirmPreviousRxKeys | slt-core/src/crypto/udp_qsp/session.rs:552-561 | drops exactly the keys no longer retained; from a peer in step they are held exactly while a packet of theirs could be accepted |
| QspSession.QuicQspSession.TryKeys | slt-core/src/crypto/udp_qsp/session.rs:437-478 | the keys that open any packet, each with its own phase; from a peer in step some do exactly if the number is identified and the generation is held or near |
| QspSession.QuicQspSession.OpenPacket | slt-core/src/crypto/udp_qsp/session.rs:437-478 | the answer to any packet and the ring afterwards; an accepted packet has the number, phase and payload that were sealed; from a peer in step a packet is accepted exactly if the rekey specification opens it, without keys it is a crypto failure, otherwise the replay window's refusal; noise changes nothing |
| Allowlist.ValidateClients | slt-core/src/config/server.rs:105-130 | accepts exactly the lists without a fault and otherwise reports the fault of the first faulty entry |
| Allowlist.FaultExactly | slt-core/src/config/server.rs:105-130 | each fault of an entry has its exact condition, the server's address before the subnet, the client id before the address |
| Allowlist.AcceptedIsInjective | slt-server/src/auth/authenticator.rs:25-36 | an accepted list keeps every entry, and no two clients share an address or have the server's |
| Allowlist.LetInExactly | slt-server/src/auth/authenticator.rs:89-135 | under an accepted list a payload gets an address exactly if some configured entry, enabled, vouches for both under its key, this MTU and this challenge |
| Allowlist.RefusedForFirstMistake | slt-server/src/auth/authenticator.rs:89-135 | every other payload is refused with the first of its mistakes, in the order of the checks |
| Allowlist.OneClientPerAddress | slt-server/src/auth/authenticator.rs:89-135 | two payloads that get the same address name the same client |
| Allowlist.AuthenticatedRegisterKeepsRoutes | slt-server/src/auth/authenticator.rs:89-135 | registering any authenticated client under an accepted list keeps the route table sound |
| Registry.SessionRegistry.RegisterSession | slt-server/src/registry.rs:95-158 | the field-by-field update is the registration transition, in which client and address lead to the returned handle |
| Registry.SessionRegistry.RemoveSession | slt-server/src/registry.rs:161-202 | the guarded removals are the removal transition |
| Registry.SessionRegistry.InsertCid | slt-server/src/registry.rs:214-260 | the insertion transition and its refusals, a stale session before a collision |
| Registry.SessionRegistry.LookupCid | slt-server/src/registry.rs:297-303 | in a sound table a connection id leads to an active session's channel or nowhere |
| Registry.SessionRegistry.LookupIp | slt-server/src/registry.rs:307-313 | in a sound table an address leads to the active session that has it, and nowhere exactly if none has |
| Registry.RegisterKeepsRoutes | slt-server/src/registry.rs:95-158 | with one address per client, address routes and sessions still correspond exactly and every connection id still leads to an active session |
| Registry.RegisterKeepsIpsExactly | slt-server/src/registry.rs:95-158 | registration keeps address routes and sessions in correspondence if and only if no other active client has the address |
| Registry.MovedClientRouted | slt-server/src/registry.rs:113-150 | a client that comes back under another address loses its old route, and the tables correspond again if and only if no other active client has the new address |
| Registry.RemoveKeepsRoutes | slt-server/src/registry.rs:161-202 | the same for removal, after which the session is not its client's active one |
| Registry.BindCidKeepsRoutes | slt-server/src/registry.rs:214-260 | the same for a connection id |
| Registry.RemoveCidsKeepsRoutes | slt-server/src/registry.rs:263-293 | the same for dropping connection ids |
| Registry.BindCidExactly | slt-server/src/registry.rs:214-260 | an id is granted exactly to an active session when no other active session has it, leads to it from then on, and no other id changes; a refusal names the stale session or the collision |
| Registry.RebindLeavesOne | slt-server/src/registry.rs:214-293 | registering an id and dropping the others leaves a session with exactly that one, dropping all undoes the registration, and other sessions keep theirs |
| Registry.SharedAddressLosesRoute | slt-server/src/registry.rs:123-130 | with a shared address the second client takes over the first one's route |
| Registry.SaturatedIdsCollide | slt-server/src/registry.rs:95-202 | late cleanup of a replaced session removes its replacement if and only if the id counter was saturated |
| Registry.SaturationReached | slt-server/src/registry.rs:95-202 | registrations from the empty table reach that counter, and from then on a takeover is undone by late cleanup |
| Lifecycle.StepKeeps | slt-server/src/auth/session_manager.rs:150-262 | every step of every task keeps the lifecycle invariant |
| Lifecycle.StepsTakeEffect | slt-server/src/registry.rs:161-293 | in every reachable state a running session that binds a free id is reached by it, one that drops its ids keeps only the one it named, and one that ends leaves no route and, as soon as the manager lock is free, no manager entry |
| Lifecycle.RoutesLeadToActiveSessions | slt-server/src/registry.rs:95-293 | in every reachable state address routes are exactly those of the clients with an active session, and addresses and connection ids lead only to active, running sessions |
| Lifecycle.ManagerAndRegistryAgree | slt-server/src/auth/session_manager.rs:204-260 | whenever the manager lock is free, an active session is the managed one, and a managed one that has not cleaned up is the active one |
| Lifecycle.ShutdownExactlyOnce | slt-server/src/auth/session_manager.rs:150-175 | at most one reason per session; an unfinished session has been sent Takeover exactly if a later session of its client has started, and once shutdown has sent its notices every other unfinished one has been sent ServerRestart |
| Lifecycle.NoneAfterShutdown | slt-server/src/auth/session_manager.rs:204-210 | after shutdown has begun no run starts, registers or manages another session |
| Lifecycle.TakeoverIsFinal | slt-server/src/auth/session_manager.rs:76-84 | once a replacement is in place, no run of other sessions' steps, late cleanup and late connection ids included, changes its client entry, address route, connection ids or manager entry |
| Manager.SessionManager.SpawnSession | slt-server/src/auth/session_manager.rs:194-262 | refuses when not accepting and otherwise makes the whole spawn transition |
| Manager.SpawnedIsRun | slt-server/src/auth/session_manager.rs:204-260 | that transition is the three spawn steps of the lifecycle machine |
| Manager.SessionManager.RemoveSessionIfCurrent | slt-server/src/auth/session_manager.rs:76-84 | the manager's part of a task's end |
| Manager.SessionManager.TakeAllSenders | slt-server/src/auth/session_manager.rs:151-163 | takes every remaining sender once, in whatever order the map yields them |
| Manager.SessionManager.SendRestarts | slt-server/src/auth/session_manager.rs:165-173 | sends each taken sender one restart notice |
| Manager.SessionManager.StartShutdown | slt-server/src/auth/session_manager.rs:150-175 | the whole shutdown transition |
| Manager.SendsInAnyOrder | slt-server/src/auth/session_manager.rs:165-173 | the outcome does not depend on the order of the notices |
| Manager.ShutDownIsRun | slt-server/src/auth/session_manager.rs:150-175 | the shutdown transition is a run of the lifecycle machine |
| Manager.ReachableIsProper | slt-server/src/auth/session_manager.rs:150-163 | what shutdown needs of the session map holds in every reachable state |
| Manager.SoundExactlyIfInjective | slt-server/src/registry.rs:95-202 | every reachable route table is sound, addresses and connection ids alike, if and only if no two clients share an address |
| Supervision.TrackerCountsExactly | slt-server/src/server_runtime/supervision.rs:151-169 | in every run the tracker's count is that of reservations and tasks, never negative, and zero exactly when there are none |
| Supervision.ServedExactlyIfOpen | slt-server/src/server_runtime/supervision.rs:151-169 | a connection gets its authentication task if and only if the gate is open, and otherwise leaves no trace |
| Supervision.NothingRunsAfterTheWaits | slt-server/src/server_runtime/supervision.rs:104-105 | once both waits have returned, no authentication or session task runs and none starts in any continuation |
| Supervision.ShutdownCompletes | slt-server/src/server_runtime/supervision.rs:61-105 | once no task is left, closing everything lets both waits return |
| Segments.CutConcat | slt-core/src/transport/udp_qsp_io.rs:133-161 | cutting a run of equal-sized packets, the last possibly shorter, gives them back |
| Segments.ConcatCut | slt-core/src/transport/mod.rs:17-22 | cutting loses and repeats nothing |
| Segments.GroDatagramRanges | slt-core/src/transport/mod.rs:17-22 | the ranges partition the buffer in order, for every length and stride including zero |
| Segments.SlicesAreCut | slt-core/src/transport/mod.rs:17-22 | the ranges yield exactly the datagrams of the received bytes |
| UdpIo.MaxSegments | slt-core/src/transport/udp_qsp_io.rs:363-375 | at least one, at most what socket and payload limits allow, and one of the two limits is reached |
| UdpIo.SlabOnWire | slt-core/src/transport/udp_qsp_io.rs:133-161 | a flushed slab leaves as the packets that went in |
| UdpIo.UdpQspIo.FlushPending | slt-core/src/transport/udp_qsp_io.rs:133-161 | delivers all that is pending to the current peer, or keeps it |
| UdpIo.UdpQspIo.MustFlushBeforeAppend | slt-core/src/transport/udp_qsp_io.rs:125-131 | a flush is due exactly if something is pending of another size or at the limit |
| UdpIo.UdpQspIo.SendPacket | slt-core/src/transport/udp_qsp_io.rs:92-123 | the flat slab with its two flushes refines a list of packets |
| UdpIo.UdpQspIo.DiscardPendingSend | slt-core/src/transport/udp_qsp_io.rs:245-249 | reports and drops what is pending, and nothing delivered |
| UdpIo.UdpQspIo.SetPeer | slt-core/src/transport/udp_qsp_io.rs:88-90 | pending packets are retargeted and kept |
| UdpIo.NothingLostOrRepeated | slt-core/src/transport/udp_qsp_io.rs:92-167 | over every run of sends, failed flushes, discards and changing limits, delivered plus pending is what was accepted less what was discarded, once and in order; what is pending always fits one send |
| UdpIo.SendOutcome | slt-core/src/transport/udp_qsp_io.rs:92-123 | success means accepted; an error with the packet accepted happens exactly when the flush of the full slab fails |
| UdpIo.SendErrors | slt-core/src/transport/udp_qsp_io.rs:92-123 | an empty packet and one above 65535 bytes each get their own error, and a socket error comes from a failed flush |
| UdpIo.DeliveredToCurrentPeer | slt-core/src/transport/udp_qsp_io.rs:88-161 | whatever an operation delivers goes to the peer of that moment, a flush delivers all that is pending in order, and changing the peer delivers nothing |
| UdpIo.FailuresDeliverNothing | slt-core/src/transport/udp_qsp_io.rs:92-161 | a flush delivers everything or nothing, and a send whose flushes fail keeps everything pending |
| UdpIo.FlushesOnlyWhenNeeded | slt-core/src/transport/udp_qsp_io.rs:107-120 | a packet of the slab's size is only appended while the slab can grow further |
| UdpIo.FailedYetDelivered | slt-core/src/transport/udp_qsp_io.rs:118-120 | a packet reported as failed can be delivered by the next flush |
| UdpIo.UdpQspIo.QueuePeerDatagrams | slt-core/src/transport/udp_qsp_io.rs:215-226 | queues exactly the current peer's datagrams of the batch, in order |
| UdpIo.UdpQspIo.RecvPacket | slt-core/src/transport/udp_qsp_io.rs:169-187 | returns what arrived first, or loses it with an error when the buffer is too small, and keeps the rest |
| UdpIo.ArrivedAppend | slt-core/src/transport/udp_qsp_io.rs:169-226 | what arrives in one run of batches and then another is what arrives in both |
| UdpIo.ReadsOfABatch | slt-core/src/transport/udp_qsp_io.rs:215-226 | the same for the reads of one batch |
| UdpIo.CoalescedArrives | slt-core/src/transport/udp_qsp_io.rs:215-226 | a coalesced read from the current peer arrives as exactly its packets, one from anybody else as nothing |
| UdpIo.OffloadRoundTrip | slt-core/src/transport/udp_qsp_io.rs:133-226 | a slab received coalesced is split into its packets |
| Framing.NeedsMoreExactly | slt-core/src/proto/framing.rs:72-98 | a buffer needs more exactly if it is shorter than a header or the beginning of a frame within the limit |
| Framing.DecodeEncode | slt-core/src/proto/message.rs:229-278 | an encoded message, with anything after it, decodes to itself if the limits admit it, and otherwise to the error that names its length |
| Framing.FrameFormat | slt-core/src/proto/framing.rs:105-114 | the frame is the type byte, the payload length in four bytes with the highest first, and the payload |
| Framing.DataLimit | slt-core/src/proto/message.rs:229-245 | the data limit refuses Data messages and no others |
| Framing.EncodeDecode | slt-core/src/proto/framing.rs:72-114 | what decodes is the encoding of what it decodes to |
| Framing.RefusedAtHeader | slt-core/src/proto/framing.rs:80-84 | unknown types and excessive lengths are refused at the header, whatever follows |
| Framing.DecodeStable | slt-core/src/proto/message.rs:229-245 | a message or an error stays when more bytes arrive |
| Framing.ChunkingIndependent | slt-core/src/transport/tcp.rs:235-249 | messages, error and unread bytes do not depend on how any byte stream is chunked |
| Framing.ParseExactly | slt-core/src/transport/tcp.rs:227-249 | the stream is the frames popped plus the unread bytes, which without an error are fewer than a header and a frame |
| Framing.StreamRoundTrip | slt-core/src/transport/tcp.rs:235-268 | any admissible messages come out of any chunking as written |
| Framing.TcpChannel.TryPopMessage | slt-core/src/transport/tcp.rs:293-312 | pops exactly what message decoding takes, and leaves the buffer on an error or a partial frame |
| Framing.TcpChannel.Drain | slt-core/src/transport/tcp.rs:227-249 | the drain loop computes the parse of the buffer |
| Framing.TcpChannel.WriteMessage | slt-core/src/transport/tcp.rs:259-268 | the exact answer for every failure; a message is reported exactly if its whole frame was written, and a failed write leaves the beginning of one |
| Framing.IntervalKeyUpdater.MaybeRequestKeyUpdate | slt-core/src/transport/tcp.rs:103-114 | updates requested are the whole intervals of messages let through; a due update that fails holds the message back |
| Backoff.ReconnectBackoff.NextDelay | slt-client/src/runtime/mod.rs:636-647 | a delay between half and all of the current backoff, which then doubles up to the maximum without overflow |
| Backoff.ReconnectBackoff.Reset | slt-client/src/runtime/mod.rs:621-623 | back to the minimum |
| Backoff.LevelDoublesUpToMax | slt-client/src/runtime/mod.rs:636-639 | after n delays the backoff is the minimum times 2^n, capped |
| Backoff.DelayRange | slt-client/src/runtime/mod.rs:636-647 | under a validated configuration the n-th delay, in whole milliseconds, lies between half and all of the minimum times 2^n, capped, and is never zero |
| ClientRuntime.StepKeeps | slt-client/src/runtime/mod.rs:143-178 | every step keeps what supervision relies on; what the steps achieve is in the rows below |
| ClientRuntime.HandlesJoinedOnce | slt-client/src/tun/mod.rs:116-195 | in every run no handle is missing when expected or joined twice, each is joined by the end, and the final error is neither internal one |
| ClientRuntime.NeverStuck | slt-client/src/runtime/mod.rs:143-441 | no reachable state is stuck: the loop can go on while it lives, an ended TUN task can be seen, and after that the supervisor can go on if and only if the one task it waits for has ended |
| ClientRuntime.MissingHandleNoticed | slt-client/src/tun/mod.rs:116-195 | awaiting a handle that is gone is noticed, and nothing else is |
| ClientRuntime.CancelEndsClean | slt-client/src/runtime/mod.rs:156-178 | a run cancelled before a TUN task was seen to end ends without an error |
| ClientRuntime.EventStreamWellFormed | slt-client/src/runtime/mod.rs:139-195 | the events of every run form one well-formed stream that is complete exactly when the runtime has ended, with Stopped last after success and Error last after an error |
| ClientRuntime.WellFormedMeans | slt-client/src/runtime/mod.rs:139-195 | such a stream starts with Starting, counts its attempts 1, 2, 3 and so on, and has its terminal event last and once |
| ClientRuntime.NothingBeforeTheFirstAttempt | slt-client/src/runtime/mod.rs:139-195 | in such a stream nothing but the beginning or the end comes before the first attempt |
| ClientRuntime.AnnouncedIsNext | slt-client/src/runtime/mod.rs:552-565 | the number of a scheduled reconnect is that of the next attempt, below the 64-bit limit |
| ClientRuntime.QuietWhileWaiting | slt-client/src/runtime/mod.rs:552-585 | between a scheduled reconnect and the next attempt the stream has only network changes, or ends |
| ClientRuntime.KeepsTrying | slt-client/src/runtime/mod.rs:348-441 | in every run of attempts, retriable failures, retriable session ends and network changes the client goes on, reports each failure once and schedules a reconnect once for each failure and each ordinary session end |
| ClientRuntime.TriesAgain | slt-client/src/runtime/mod.rs:377-441 | from every such state a failed attempt or an ended session is followed by the next attempt, with exactly the events in between |
| ClientRuntime.OneAttemptAtATime | slt-client/src/runtime/mod.rs:348-441 | an attempt is one connect in progress that can succeed or fail; a waiting client wakes once, and says so if the network changed |
| ClientRuntime.EndingExplained | slt-client/src/runtime/mod.rs:143-296 | every ending has its cause in the run: a connect error follows a fatal connect failure, a session error a fatal session exit, a TUN error that task's exit, success a request to stop |
| ClientRuntime.StopsWhenAsked | slt-client/src/runtime/mod.rs:449-508 | a stop request in a connect attempt or a session settles the result as success, and a cancellation does so at the next attempt |
| ClientRuntime.StopsWithinThreeSteps | slt-client/src/runtime/mod.rs:261-441 | once cancelled, or once a TUN task has failed, no run makes another attempt and the session loop makes at most three more steps |
| ClientRuntime.EndsOnceTasksEnd | slt-client/src/runtime/mod.rs:143-195 | from every reachable state whose loop has returned, the runtime ends with that result once both TUN tasks have ended |
| ClientRuntime.TasksToldToStop | slt-client/src/runtime/mod.rs:172-178 | in every run the TUN tasks have been told to stop before they are awaited |
| ClientRuntime.TunFailureReported | slt-client/src/runtime/mod.rs:156-178 | a TUN task seen to end before cancellation is what every continuation reports, with its outcome |
| ClientRuntime.ClosedChannelReported | slt-client/src/runtime/mod.rs:156-210 | a session that lost a TUN channel makes the runtime report that task's own outcome |
| ClientRuntime.FatalIsFinal | slt-client/src/runtime/mod.rs:261-296 | after a fatal connect error or session exit no run makes another attempt, and unless the runtime was stopping or a TUN task had failed it ends with that error |
| NatTable.TableInvariant | slt-server/src/quic.rs:520-640 | in every reachable table capacity holds, peers are distinct, and tokens are distinct and below the next one until they wrap |
| NatTable.DoneRemovesOwnEntry | slt-server/src/quic.rs:536-545 | a reader's notification removes its peer's entry exactly if the tokens are equal, up to the wrap-around exactly if it is the entry's own reader; a stale one loses nothing |
| NatTable.PacketKeepsUpstream | slt-server/src/quic.rs:583-640 | a known peer keeps its reader, a new one gets a new one, and only the least recently used entry of a full table can go |
| NatTable.FreshOk | slt-server/src/quic.rs:547-561 | a sweep keeps exactly the entries that are not idle |
| NatTable.WrappedTokenRemovesOther | slt-server/src/quic.rs:610-611 | a run, on a clock that only rises, after which the first reader's late notification removes the entry of a reader spawned 2^64 later |
| NatTable.QuicNatState.HandleReaderDone | slt-server/src/quic.rs:536-545 | popping and putting back is the notification transition |
| NatTable.QuicNatState.SweepIdle | slt-server/src/quic.rs:547-561 | listing the idle peers and removing them one by one is the sweep |
| NatTable.QuicNatState.GetOrCreateUpstream | slt-server/src/quic.rs:583-640 | the packet transition and whether there is an upstream |
| QuicDispatch.ClassifiedExactly | slt-core/src/classifier.rs:42-68 | Short exactly for a short header followed by a 20-byte id, which is the one returned; Pass exactly for a long header with the fixed bit |
| QuicDispatch.FateExactly | slt-server/src/quic.rs:360-456 | claimed exactly if a short header carries an id registered at that moment, by its session; dropped exactly without a header; setup failure exactly for an unknown peer without a socket |
| QuicDispatch.HandledInOrder | slt-server/src/quic.rs:328-351 | the log grows by the datagrams in order, each with the fate the table gives it at that moment |
| QuicDispatch.ArrivalsAppend | slt-server/src/quic.rs:328-351 | the datagrams of one batch and then another are those of both |
| QuicDispatch.CoalescedArrives | slt-server/src/quic.rs:328-351 | a coalesced read of any equal-sized packets, the last possibly shorter, is exactly those packets from its sender |
| QuicDispatch.EveryPacketHandled | slt-server/src/quic.rs:328-351 | after any batch a coalesced read adds exactly its packets to the log, in order and under its sender, each counted once |
| QuicDispatch.HandledPeerKnown | slt-server/src/quic.rs:416-456 | a datagram that goes upstream leaves its peer in the table, seen now; any other leaves the table alone |
| QuicDispatch.OneUpstreamPerRead | slt-server/src/quic.rs:328-456 | through a coalesced read a known peer keeps its upstream and loses nothing to setup, an unknown one gets at most one |
| QuicDispatch.QuicEndpoint.HandleDatagram | slt-server/src/quic.rs:360-414 | the handling transition: one fate, counted, and the table touched exactly for what goes upstream |
| QuicDispatch.QuicEndpoint.ForwardToUpstream | slt-server/src/quic.rs:416-456 | the table is touched for the peer, and the datagram is counted as sent, setup failure or send failure accordingly |
| QuicDispatch.QuicEndpoint.DispatchRecvBatch | slt-server/src/quic.rs:328-351 | the nested loops handle every datagram of the batch once, in order; the rows above say which datagrams those are |
| QuicDispatch.Conservation | slt-server/src/quic.rs:328-456 | accepted is dropped plus claimed plus passed; claimed is delivered plus queue drops; passed is sent plus setup plus send failures |
| QuicDispatch.CountersExactly | slt-server/src/quic.rs:328-456 | each counter is the number of handled datagrams with that fate |

## Left out

- Real sockets, TLS, DNS, TUN devices and the nginx copy loop: their answers are parameters.
- HMAC, Ed25519 and AEAD: no claim about forgery; a sealed packet is opened by its own keys only, and the header bytes of a UDP-QSP packet and their protection are not modelled.
- The words of the replay bitmap are sequences of 64 booleans instead of machine words.
- QspSession.QuicQspSession.OpenPacket: how long a peer that started at another number than this receiver expects is understood is not worked out; its packets are answered and never accepted twice.
- Lifecycle.StepKeeps: session ids below the 64-bit limit only; `SaturatedIdsCollide` shows why.
- Lifecycle.ShutdownExactlyOnce: a notice counts as sent when the sender is used, also if the session has already ended; a session task that panics skips its cleanup and is not modelled.
- Manager.SessionManager.SpawnSession: the channel of a session is named by the session's id.
- NatTable.TableInvariant: that an entry pushed out by capacity has its reader aborted is not claimed; the cache only returns a value replaced under the same key.
- ClientRuntime.EventStreamWellFormed: TLS, authentication and session events are one kind of event, and the delay in a scheduled reconnect is not part of it.
- ClientRuntime.HandlesJoinedOnce: starts from a validated configuration; the refusal of an invalid one only joins both tasks.
- Allowlist.ValidateClients: the loop over clients only, not the checks of the other settings.
- The eviction of idle TCP connections, retry delays of the peek loop and the timeout around shutdown: timing only, each is a step that may happen.
- Session event loops, upgrade and fallback between TCP and UDP, payload codecs, admissibility tables, metrics output, command line, certificates and the Android bridge.
