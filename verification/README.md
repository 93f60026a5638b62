# RDoWS: a verified model of the protocol, the memory store and the key/value table

RDoWS carries RDMA verbs over a reliable, ordered channel of binary messages.
This project models the client, the server session, the server's memory store,
the wire codec, the key/value table built on top, and the two limiters, and
proves what they guarantee over whole runs.

The model has two layers. The value layer (datatypes and functions) says what
each operation returns and what state it leaves behind; the theorems are about
this layer. The object layer keeps the form of the program: `MemoryStore`,
`Session`, `CompletionQueue`, `RdowsConnection`, `KvStore` and `Tracker` are
classes whose methods update fields in place and loop where the program loops,
and each method is proved equal to the value layer. What the functions of the value
layer compute is in turn stated by laws that do not mention their bodies: byte
positions on the wire, logs of registrations and writes, times of arrival.

| file | contents |
|---|---|
| `Core.dfy`, `Codec.dfy`, `WireLayout.dfy` | wire vocabulary; encoder, decoder and their round trips; the format by byte position |
| `MemoryModel.dfy`, `MemoryHistory.dfy`, `MemoryRecords.dfy`, `ServerMemory.dfy` | the memory store: operations and accounting; history, atomics, revocation; replies from the log of registrations; the object |
| `SessionModel.dfy`, `SessionRuns.dfy`, `SessionMemory.dfy` | a server session: handlers and receive loop; credit, queue and filter laws; its memory |
| `CreditReturns.dfy`, `RateLimit.dfy`, `SessionAnswers.dfy` | when credits come back; which registrations pass the limiter; handshake, end of session and unserved messages |
| `SessionFrames.dfy`, `ServerSession.dfy` | whole sessions over any frames; the session object |
| `ClientModel.dfy`, `ClientConnection.dfy`, `ClientSteps.dfy` | the client: verbs on values; the object; their agreement with the protocol steps |
| `Traffic.dfy`, `Protocol.dfy`, `ProtocolInvariant.dfy`, `ProtocolTheorems.dfy` | the server under verb traffic; client and server joined by two channels of bytes; the invariant of every interleaving; the whole-run theorems |
| `Progress.dfy`, `VerbOutcomes.dfy` | no deadlock, every verb returns; exactly how it ends |
| `ReadAfterWrite.dfy`, `EndToEnd.dfy`, `AtomicCounter.dfy`, `Misread.dfy` | data through the whole stack: read after write, atomics, and the run in which read after write fails |
| `LocalMemory.dfy`, `AccessRights.dfy` | the client's local regions over runs; access rights from the registering verb to the outcome |
| `Episodes.dfy`, `RemoteMemory.dfy` | one verb from beginning to end under any schedule, as one access to remote memory |
| `KvTable.dfy`, `KvRegion.dfy`, `KvStore.dfy` | the hash table of 64 slots; its raw bytes; the store object over the protocol |
| `SessionTracker.dfy` | the per-IP session count under every interleaving of connection tasks |

How the protocol results fit together: a run is any interleaving of verbs, frame
deliveries, polls and local writes (`Protocol.Exec`). `ProtocolInvariant.Inv`
says that the bytes on both wires are exactly the encodings of what a sequential
server would have produced from the requests issued so far. Every other protocol
theorem is then derived from laws about server runs that hold for arbitrary
messages.

Three things the code does differ from what one would expect, and are stated
exactly:

- A WRITE refused at its key check draws a second ERROR for its data, so from
  then on every verb reads the answer of an earlier one. `VerbsArePaired` says
  which answer each verb consumed, `OutcomeIsDecided` what becomes of it,
  `SinkHoldsWhatOwnerReadsBack` what a read then leaves in its sink, and
  `RefusedWriteMisleadsRead` is a run in which a WRITE and a READ of the same
  range both succeed and the sink holds other bytes.
- An oversize message does not advance the expected sequence number.
  Consecutive messages are all processed if and only if none is oversize
  (`AllProcessedIffNoneOversize`), and the first oversize one ends what is
  processed (`OversizeStallsSession`, `OversizeExample`).
- Deleting a key leaves no mark in the table. `DeleteExactEffect` says which
  other keys are lost, `DeleteKeepsSoundIff` when the table stays sound, and
  `UnsafeDeleteLosesKey` shows a loss.

The clock and the random draws are inputs of each message (`Env`); channels are
reliable and ordered.

## Model

| member | source | states |
|---|---|---|
| Codec.RoundTrip | crates/rdows-core/src/message.rs:666-771 | decoding the encoding of any well-formed message of the twenty kinds gives the message back, with `payload_length` filled in; the bytes in between are those of WireLayout.EncodedLayout |
| Codec.WireRoundTrip | crates/rdows-core/src/message.rs:666-771 | what any message that can be framed becomes on the wire: itself with `payload_length` filled in, except that a SEND list and an ERROR text lose what their 16-bit length cannot count |
| Codec.RoundTripIff | crates/rdows-core/src/message.rs:666-771 | such a message decodes to itself if and only if its list or text length fits 16 bits |
| Codec.CanonicalForm | crates/rdows-core/src/message.rs:696-771 | for every byte string that decodes, re-encoding and decoding gives the same message apart from `payload_length`, and normalising is idempotent |
| Codec.DecodedIsWellFormed | crates/rdows-core/src/message.rs:696-771 | whatever decodes is a message the encoder represents without truncation |
| Codec.EncodeInjective | crates/rdows-core/src/message.rs:666-694 | two well-formed messages have the same encoding exactly when they agree up to `payload_length` |
| Codec.HeaderRoundTrip | crates/rdows-core/src/frame.rs:39-78 | the 24-byte header decodes to itself whatever payload follows it; its bytes are those of WireLayout.EncodedHeader |
| Codec.SgListRoundTrip | crates/rdows-core/src/queue.rs:18-38 | a scatter/gather list of any length decodes to itself |
| Codec.WriteSgEntries | crates/rdows-core/src/message.rs:226-228 | the encoder's loop produces the list encoding |
| Codec.ReadSgEntries | crates/rdows-core/src/message.rs:249-253 | the decoder's loop reads exactly `count` entries, and fails with the bytes left over exactly when they are cut short |
| Codec.BigEndianAt | crates/rdows-core/src/frame.rs:39-47 | byte i of an n-byte field carries the digit of weight 256 to the power n - 1 - i: most significant byte first |
| Codec.FromBigEndianIsSum | crates/rdows-core/src/frame.rs:49-78 | a field reads as the sum of its bytes, each times its weight |
| WireLayout.EncodedHeader | crates/rdows-core/src/frame.rs:39-47 | for every message: version at byte 0, the code of its opcode at 1, flags at 2, session at 4, sequence at 8, WRID at 12, payload length at 20 |
| WireLayout.EncodedLayout | crates/rdows-core/src/message.rs:25-694 | for every message: header, opcode code, every payload field of each of the twenty kinds at its byte position, list entries of sixteen bytes, zeros in the reserved places, and nothing after them |
| WireLayout.DecodedLayout | crates/rdows-core/src/message.rs:32-771 | every frame that decodes, canonical or not, holds the returned message field by field at those positions |
| WireLayout.DecodeSucceedsIff | crates/rdows-core/src/message.rs:696-771 | a frame decodes if and only if it has a header, version 1, one of the twenty opcode codes and enough bytes for what its opcode and length field ask for |
| MemoryModel.PickedKeyIsFresh | crates/rdows-server/src/memory_store.rs:229-240 | a drawn R_Key is nonzero and unused; none is found exactly when all thousand draws are unusable |
| MemoryModel.PickIsFirst | crates/rdows-server/src/memory_store.rs:229-240 | the key is the first usable draw |
| MemoryModel.RunKeepsValid | crates/rdows-server/src/memory_store.rs:46-97 | after any operations the two key maps are inverse, live R_Keys were issued, the byte total is the sum of live lengths and both limits hold |
| MemoryModel.FailedDrawChangesOnlyNextLkey | crates/rdows-server/src/memory_store.rs:46-78 | a failed registration changes nothing but `next_lkey`, and that only when every draw failed |
| MemoryHistory.MemoryIsLastWriterWins | crates/rdows-server/src/memory_store.rs:46-227 | after any operations every live byte is the one placed by the last successful write, atomic or registration that covered it |
| MemoryHistory.ReadReturnsLastPlaced | crates/rdows-server/src/memory_store.rs:151-174 | a successful read returns those bytes, at full length |
| MemoryHistory.ChangeNeedsAccess | crates/rdows-server/src/memory_store.rs:99-149 | a byte changes only through a live R_Key with the needed flag and a range that covers it |
| MemoryHistory.RegisteredKeysDistinct | crates/rdows-server/src/memory_store.rs:229-240 | R_Keys returned by different registrations are nonzero and different, across deregistrations |
| MemoryHistory.DeregisteredKeyIsDead | crates/rdows-server/src/memory_store.rs:80-118 | after a successful deregistration every later use of its R_Key is answered ErrInvalidMkey |
| MemoryHistory.AtomicsActOnOneCell | crates/rdows-server/src/memory_store.rs:176-227 | atomics on an aligned word return what a lone 64-bit cell would, whatever else is interleaved |
| MemoryHistory.FetchAndAddsReturnPartialSums | crates/rdows-server/src/memory_store.rs:176-227 | fetch-and-adds on one word return the partial sums modulo 2^64 |
| MemoryHistory.CompareAndSwapElectsOne | crates/rdows-server/src/memory_store.rs:176-227 | of compare-and-swaps that expect the same value, the one that finds it stores its own, and all later ones find that |
| MemoryRecords.RegistrationRecords | crates/rdows-server/src/memory_store.rs:46-78 | a successful registration adds, under fresh keys, a zeroed region with the flags, protection domain and length asked for, and leaves every other region alone |
| MemoryRecords.RecordStays | crates/rdows-server/src/memory_store.rs:46-97 | from the log alone: a returned key keeps the flags, domain and length of its registration, and lives exactly until its L_Key is deregistered |
| MemoryRecords.ReplyFromLog | crates/rdows-server/src/memory_store.rs:99-227 | every write, read and atomic through a returned key is refused or performed, with the right code, as its registration and the deregistrations since then say |
| MemoryRecords.DeniedWithoutFlag | crates/rdows-server/src/memory_store.rs:99-118 | through a live key registered without the flag the answer is ErrAccessDenied |
| MemoryRecords.DeregisterFromLog | crates/rdows-server/src/memory_store.rs:80-97 | a deregistration succeeds once, and only with the protection domain of the registration |
| MemoryRecords.LiveKeyWasReturned | crates/rdows-server/src/memory_store.rs:46-118 | every live key of a run was returned by a registration of that run and is as that one asked |
| MemoryRecords.AtomicOnBytes | crates/rdows-server/src/memory_store.rs:176-227 | an atomic returns the big-endian word in memory and stores the sum modulo 2^64 or the swapped value there; all other bytes stay |
| MemoryRecords.AtomicReturnsLastPlaced | crates/rdows-server/src/memory_store.rs:176-227 | over runs, the word returned is the big-endian value of the eight bytes the log placed last |
| ServerMemory.MemoryStore.constructor | crates/rdows-server/src/memory_store.rs:34-44 | a new store is empty, with its limits, and satisfies the accounting invariant |
| ServerMemory.MemoryStore.GenerateRkey | crates/rdows-server/src/memory_store.rs:229-240 | the retry loop returns the first usable draw and records it as used |
| ServerMemory.MemoryStore.Register | crates/rdows-server/src/memory_store.rs:46-78 | reply and new store are those of the registration step, which MemoryRecords.RegistrationRecords describes field by field |
| ServerMemory.MemoryStore.Deregister | crates/rdows-server/src/memory_store.rs:80-97 | reply and new store are those of the deregistration step |
| ServerMemory.MemoryStore.ValidateRkey | crates/rdows-server/src/memory_store.rs:99-118 | the live region behind a key that grants the access, else the error |
| ServerMemory.MemoryStore.WriteRegion | crates/rdows-server/src/memory_store.rs:120-149 | reply and new store are those of the write step |
| ServerMemory.MemoryStore.ReadRegion | crates/rdows-server/src/memory_store.rs:151-174 | the requested bytes or the error; the store is unchanged |
| ServerMemory.MemoryStore.AtomicOp | crates/rdows-server/src/memory_store.rs:176-227 | reply and new store are those of the atomic step, which MemoryRecords.AtomicOnBytes describes byte by byte |
| SessionModel.HandleAllIsNumberedRun | crates/rdows-server/src/session.rs:75-79 | the messages of a whole run carry consecutive sequence numbers modulo 2^32 |
| SessionModel.ServeAllIsHandleAll | crates/rdows-server/src/session.rs:82-124 | as long as every frame decodes, the loop over frames is the loop over messages |
| SessionRuns.RunCredit | crates/rdows-server/src/handler.rs:174-219 | for any incoming messages, credits returned plus SENDs not yet credited equal the RECV_COMPs sent, and what follows the last response is at most one quota |
| SessionRuns.PrefixCredit | crates/rdows-server/src/handler.rs:174-219 | at no point of the output are more credits returned than completions sent |
| CreditReturns.CompletionReturns | crates/rdows-server/src/handler.rs:198-219 | a completed SEND draws a CREDIT_UPDATE exactly when it fills the quota, and then for the whole quota |
| CreditReturns.CreditsReturnByQuota | crates/rdows-server/src/handler.rs:174-219 | for any incoming messages every CREDIT_UPDATE carries one quota and directly follows the RECV_COMP that fills it, their number is that of whole quotas completed, and the session counts the remainder |
| SessionRuns.RunQueue | crates/rdows-server/src/handler.rs:149-270 | for any incoming messages, initial depth is remaining depth plus RECV_COMPs plus a pending SEND plus SENDs overwritten or dropped |
| SessionRuns.RejectedChangesNothing | crates/rdows-server/src/session.rs:126-166 | a message stopped by the size or sequence check draws one ERROR with its number and changes nothing |
| SessionRuns.FilteringIsExact | crates/rdows-server/src/session.rs:126-166 | the processed messages are consecutive modulo 2^32, and leaving out all others gives the same session and the same answers |
| SessionRuns.OversizeStallsSession | crates/rdows-server/src/session.rs:131-163 | the first oversize message among consecutively numbered ones, at any place, ends what is processed: the kept messages and the session are those of the messages before it, up to a full turn of the counter |
| SessionRuns.AllProcessedIffNoneOversize | crates/rdows-server/src/session.rs:131-163 | consecutively numbered messages are all processed if and only if none is oversize |
| SessionRuns.OversizeExample | crates/rdows-server/src/session.rs:131-163 | a SEND_DATA one byte over the limit is refused with ErrPayloadSize and the message after it with ErrSeqGap |
| SessionMemory.RunPerformsOps | crates/rdows-server/src/handler.rs:15-62 | for the store, a run of messages is the run of the store operations they stand for |
| SessionMemory.SessionKeepsStoreValid | crates/rdows-server/src/handler.rs:64-132 | store accounting holds after any messages |
| SessionMemory.SessionMemoryIsLastWriterWins | crates/rdows-server/src/handler.rs:223-359 | after any messages every live byte is the last one placed |
| SessionMemory.MessageChangeNeedsAccess | crates/rdows-server/src/handler.rs:223-283 | one message changes a byte only through a key live and sufficient at that moment, inside the range it names |
| SessionMemory.RevokedKeyIsRefusedForever | crates/rdows-server/src/handler.rs:223-359 | an issued key that is not live is answered ErrInvalidMkey after any further messages, at WRITE and at WRITE_DATA alike |
| SessionMemory.DeregRevokes | crates/rdows-server/src/handler.rs:115-132 | a successful MR_DEREG leaves its R_Key issued and not live |
| RateLimit.RegistrationRateBound | crates/rdows-server/src/handler.rs:70-86 | any span of n whole seconds lets at most (n + 1) times the limit through |
| RateLimit.WindowCountIsExact | crates/rdows-server/src/handler.rs:70-86 | the counter is the number let through since its window opened, and never exceeds the limit |
| RateLimit.RegistrationIsDecided | crates/rdows-server/src/handler.rs:64-113 | from the times of the registrations alone: one passes if and only if fewer than the limit have passed since its window opened; it then performs the registration and acknowledges its result, and otherwise changes nothing and reports ErrInternal |
| RateLimit.NewWindowLetsThrough | crates/rdows-server/src/handler.rs:70-75 | with a positive limit a registration a second or more after the last opening always passes |
| SessionAnswers.ConnectOpens | crates/rdows-server/src/session.rs:168-212 | CONNECT opens the session with the smaller of the two sizes and is acknowledged with it |
| SessionAnswers.OtherThanConnectCloses | crates/rdows-server/src/session.rs:174-221 | anything else in its place ends the session, a wrong version with ErrProtoVersion |
| SessionAnswers.NegotiatedLimitHolds | crates/rdows-server/src/session.rs:126-146 | after CONNECT and any messages a message is refused for its size if and only if it exceeds what the client asked for or 16 MiB |
| SessionAnswers.DisconnectEndsSession | crates/rdows-server/src/session.rs:224-234 | after a processed DISCONNECT no later message is processed or answered, and nothing changes |
| SessionAnswers.UnservedChangeNothing | crates/rdows-server/src/handler.rs:44-61 | messages only a server sends are refused with ErrUnknownOpcode, ACK and CREDIT_UPDATE ignored, and none changes anything but the number expected |
| SessionAnswers.ErrorNamesRequest | crates/rdows-server/src/handler.rs:15-359 | every ERROR has WRID zero and names the message it answers, or none when that is a data part |
| SessionFrames.NotesFit | crates/rdows-server/src/handler.rs:15-359 | whatever arrives, every message a session sends can be framed without truncation, as long as the answers to reads can |
| SessionFrames.ServeAllHandlesAccepted | crates/rdows-server/src/session.rs:82-124 | for any frames, the loop handles the messages up to the first frame that does not decode and then stops |
| SessionFrames.FreshSessionLaws | crates/rdows-server/src/session.rs:82-124 | from a fresh session and for any frames, CONNECT included: the store is sound, credits returned plus SENDs not yet credited are the completions sent, and the receive queue is accounted for |
| SessionFrames.FreshFramesDecode | crates/rdows-server/src/session.rs:75-79 | every frame such a session sends decodes to what was meant, numbered consecutively from zero modulo 2^32 |
| ServerSession.Session.constructor | crates/rdows-server/src/session.rs:50-73 | the initial session |
| ServerSession.Session.Transmit | crates/rdows-server/src/session.rs:75-79 | one frame with the next number goes to the sink, and only the counter moves |
| ServerSession.Session.TransmitError | crates/rdows-server/src/session.rs:252-267 | one ERROR frame goes to the sink |
| ServerSession.Session.HandleMrReg | crates/rdows-server/src/handler.rs:64-113 | new state and frames are those of the MR_REG step, which RateLimit.RegistrationIsDecided decides from the history |
| ServerSession.Session.HandleMrDereg | crates/rdows-server/src/handler.rs:115-132 | new state and frames are those of the MR_DEREG step |
| ServerSession.Session.HandleSend | crates/rdows-server/src/handler.rs:149-172 | new state and frames are those of the SEND step |
| ServerSession.Session.CompleteSend | crates/rdows-server/src/handler.rs:198-219 | state and frames of the completion step; over runs CreditReturns.CreditsReturnByQuota says when its CREDIT_UPDATE comes |
| ServerSession.Session.HandleSendData | crates/rdows-server/src/handler.rs:174-219 | new state and frames are those of the SEND_DATA step |
| ServerSession.Session.HandleWrite | crates/rdows-server/src/handler.rs:223-244 | new state and frames are those of the WRITE step |
| ServerSession.Session.HandleWriteData | crates/rdows-server/src/handler.rs:246-283 | new state and frames are those of the WRITE_DATA step |
| ServerSession.Session.HandleReadReq | crates/rdows-server/src/handler.rs:285-323 | new state and frames are those of the READ_REQ step; the outstanding-read count is back where it was |
| ServerSession.Session.HandleAtomicReq | crates/rdows-server/src/handler.rs:325-359 | new state and frames are those of the ATOMIC_REQ step |
| ServerSession.Session.Dispatch | crates/rdows-server/src/handler.rs:15-62 | each body goes to its handler |
| ServerSession.Session.HandleConnect | crates/rdows-server/src/session.rs:168-222 | new state and frames are those of the CONNECT step |
| ServerSession.Session.HandleReady | crates/rdows-server/src/session.rs:224-242 | new state and frames are those of the ready session |
| ServerSession.Session.HandleMessage | crates/rdows-server/src/session.rs:126-166 | new state and frames are those of one message |
| ServerSession.Session.ReceiveLoop | crates/rdows-server/src/session.rs:86-121 | the receive loop leaves the state and frames of the run over all frames, up to the first that closes it or does not decode |
| ServerSession.RunSession | crates/rdows-server/src/session.rs:82-124 | a fresh session object run over any frames ends in the state and with the frames of that run; its store is sound, its frames decode with consecutive numbers, its credits and receive queue are accounted for |
| ClientModel.GatherSucceeds | crates/rdows-client/src/verbs.rs:414-433 | gathering succeeds exactly when every entry is in bounds, and then has the sum of the lengths |
| ClientModel.GatherIsConcatenation | crates/rdows-client/src/verbs.rs:414-433 | in the gathered data every segment stands at its own place |
| ClientModel.AcceptExplains | crates/rdows-client/src/verbs.rs:27-408 | the outcome of a verb tells which kind of response it consumed, and carries its values |
| ClientModel.CompletionIsEntry | crates/rdows-client/src/verbs.rs:106-408 | the completion a verb pushes is decided by what it consumed and how it ended: the code of an ERROR, status zero on success, always with its own WRID, and none otherwise |
| ClientModel.AcceptedReadFillsSink | crates/rdows-client/src/verbs.rs:279-309 | a read that completed left the received bytes in the local region at the requested place |
| LocalMemory.LocalWritePlaces | crates/rdows-client/src/verbs.rs:436-456 | a local write places its bytes and leaves the length of the region, its other bytes and all other regions as they were, or fails by L_Key, overflow or bounds and changes nothing |
| LocalMemory.LocalReadReturns | crates/rdows-client/src/verbs.rs:459-478 | a local read returns every byte of the range, or fails on the same conditions |
| LocalMemory.AcceptHappens | crates/rdows-client/src/verbs.rs:27-324 | a response changes local memory only as the outcome says: a registration adds a zeroed region, a deregistration removes one, a completed read places its bytes, and everything else stays |
| LocalMemory.LocalMemoryIsLastWriterWins | crates/rdows-client/src/verbs.rs:27-478 | after every run the length and every byte of each local region are those of the last event that covered them: a local write, a completed read, a registration or a deregistration |
| LocalMemory.LocalReadReturnsLastPlaced | crates/rdows-client/src/verbs.rs:459-478 | what a local read returns after any run, from those events |
| LocalMemory.GatheredByte | crates/rdows-client/src/verbs.rs:414-433 | byte j of entry k of a gathered list is byte offset plus j of its region, at the sum of the lengths before it |
| LocalMemory.FirstBadEntryDecides | crates/rdows-client/src/verbs.rs:414-433 | the first bad entry decides the error of a gather |
| LocalMemory.WriteSendsLastPlaced | crates/rdows-client/src/verbs.rs:177-245 | after any run the data of a WRITE are, entry by entry, the bytes placed last in its local segments |
| LocalMemory.VerbGivesUpIff | crates/rdows-client/src/verbs.rs:106-408 | a verb gives up before sending exactly when the completion queue is full, a SEND has no credits, or an entry of its list is bad, in this order |
| LocalMemory.DeregisteredIsGone | crates/rdows-client/src/verbs.rs:74-100 | once a deregistration has completed, local reads, writes and gathers through its L_Key fail with ErrInvalidLkey |
| ClientConnection.CompletionQueue.constructor | crates/rdows-client/src/completion.rs:11-16 | an empty queue of the given capacity |
| ClientConnection.CompletionQueue.Push | crates/rdows-client/src/completion.rs:18-24 | accepted exactly when there is room, and then appended |
| ClientConnection.CompletionQueue.PollCq | crates/rdows-client/src/completion.rs:26-29 | the oldest entries, at most `max`, leave the queue in order |
| ClientConnection.RdowsConnection.constructor | crates/rdows-client/src/lib.rs:52-77 | the connection after CONNECT_ACK |
| ClientConnection.RdowsConnection.Transmit | crates/rdows-client/src/lib.rs:94-98 | one frame with the next number is sent |
| ClientConnection.RdowsConnection.ValidateRemoteSeq | crates/rdows-client/src/lib.rs:104-112 | fails exactly on a gap, and otherwise moves the expected number on |
| ClientConnection.RdowsConnection.RecvAppMessage | crates/rdows-client/src/lib.rs:114-126 | the loop absorbs credit updates and returns the first other message or the first error |
| ClientConnection.RdowsConnection.GatherSgData | crates/rdows-client/src/verbs.rs:414-433 | the loop computes the gathered data or the error of the first bad entry |
| ClientConnection.RdowsConnection.Complete | crates/rdows-client/src/verbs.rs:145-152 | one completion is pushed if there is room |
| ClientConnection.RdowsConnection.RegMr | crates/rdows-client/src/verbs.rs:27-72 | frames sent, frames read, new state and outcome are those of the verb |
| ClientConnection.RdowsConnection.DeregMr | crates/rdows-client/src/verbs.rs:74-100 | frames sent, frames read, new state and outcome are those of the verb |
| ClientConnection.RdowsConnection.PostSend | crates/rdows-client/src/verbs.rs:106-171 | frames sent, frames read, new state and outcome are those of the verb |
| ClientConnection.RdowsConnection.RdmaWrite | crates/rdows-client/src/verbs.rs:177-245 | frames sent, frames read, new state and outcome are those of the verb |
| ClientConnection.RdowsConnection.RdmaRead | crates/rdows-client/src/verbs.rs:251-324 | frames sent, frames read, new state and outcome are those of the verb; what it does to local memory is LocalMemory.AcceptHappens |
| ClientConnection.RdowsConnection.PostAtomic | crates/rdows-client/src/verbs.rs:353-408 | frames sent, frames read, new state and outcome are those of the verb |
| ClientConnection.RdowsConnection.WriteLocalMr | crates/rdows-client/src/verbs.rs:436-456 | state and outcome of the local write, whose effect on every byte is LocalMemory.LocalWritePlaces |
| ClientConnection.RdowsConnection.ReadLocalMr | crates/rdows-client/src/verbs.rs:459-478 | the requested bytes of the local region, or the error |
| ClientSteps.CollectsReadResponse | crates/rdows-client/src/lib.rs:114-126 | reading until a response arrives is a run of single-frame receive steps with the same result |
| ClientSteps.VerbIsProtocolRun | crates/rdows-client/src/verbs.rs:27-408 | what a verb of the connection object sends, reads and returns is what the protocol steps do |
| ClientSteps.ReadingIsInOrder | crates/rdows-client/src/lib.rs:104-126 | for every stream of frames from whatever server: credits add up while numbers follow on, and the first other frame is the response if it carries the next number, a gap if not, an error if it does not decode |
| ClientSteps.PollTakesOldest | crates/rdows-client/src/completion.rs:26-29 | a poll in a run takes the oldest entries, as many as asked for or as there are |
| Protocol.HandshakeConnects | crates/rdows-client/src/connection.rs:97-143 | CONNECT and CONNECT_ACK, through the codec, lead to the initial state of the protocol |
| Traffic.OrderlyIsProcessed | crates/rdows-server/src/session.rs:147-163 | any number of in-order requests are all processed, past the wrap of the counter too |
| Traffic.VerbServed | crates/rdows-server/src/handler.rs:149-283 | each verb is answered once, by an ERROR or by its own completion with its own WRID, and a refused WRITE twice |
| Traffic.CallsAnswered | crates/rdows-server/src/handler.rs:136-283 | n verbs draw n responses plus one for each refused WRITE |
| Traffic.ResponsesInOrder | crates/rdows-server/src/handler.rs:136-283 | the responses to verb k start at place k plus the refused WRITEs before it |
| Traffic.OwnerIsSelfIff | crates/rdows-server/src/handler.rs:223-283 | the call that owns place k among the responses is k or an earlier one, and is k exactly when no WRITE was refused before it |
| Traffic.ResponseIsOwners | crates/rdows-server/src/handler.rs:136-283 | the response at place k is the one its owner was given, counted from the owner's first place |
| Traffic.VerbsDropNothing | crates/rdows-server/src/handler.rs:149-270 | traffic of client verbs never makes the server forget a SEND |
| ProtocolInvariant.RunKeepsInv | crates/rdows-client/src/lib.rs:94-126 | in every interleaving the wires carry exactly what a sequential server would have produced, and the client's counters match what it has read |
| ProtocolTheorems.NoFalseGaps | crates/rdows-client/src/lib.rs:94-112 | in every run the next frame of either side decodes and passes the size and sequence checks |
| ProtocolTheorems.CreditsConserved | crates/rdows-client/src/lib.rs:114-126 | in every run credits held, credits unread and SENDs not yet credited equal the initial credits plus RECV_COMPs unread, plus those read by a verb other than a SEND |
| ProtocolTheorems.CreditsBounded | crates/rdows-client/src/verbs.rs:106-171 | without a refused WRITE credits stay between zero and the initial credits |
| ProtocolTheorems.CreditsAtBoundary | crates/rdows-server/src/handler.rs:203-216 | without a refused WRITE a client between verbs lacks at most one quota |
| ProtocolTheorems.CreditsNeverRunOut | crates/rdows-client/src/verbs.rs:114-116 | with two or more initial credits SendCreditsExhausted is then unreachable |
| ProtocolTheorems.UnreadAtBoundary | crates/rdows-server/src/handler.rs:223-283 | between verbs the responses unread or still to come number exactly the WRITEs refused so far |
| ProtocolTheorems.VerbsArePaired | crates/rdows-client/src/verbs.rs:27-408 | in every run verb k consumed an answer to the owner of place k, which one of its answers it was, and what the verb made of it |
| ProtocolTheorems.RefusedWriteFailsLaterVerb | crates/rdows-server/src/handler.rs:230-269 | every refused WRITE makes the verb at its second place fail with ErrUnknownOpcode, whatever it is |
| ProtocolTheorems.ReceiveQueueConserved | crates/rdows-server/src/handler.rs:149-219 | in every run of verbs the receive-queue depth is accounted for by completions and a SEND in progress |
| ProtocolTheorems.CompletionsKept | crates/rdows-client/src/completion.rs:18-29 | polled followed by queued completions are, in call order, exactly one entry for each finished verb that succeeded or consumed an ERROR; the queue never exceeds its capacity, and a waiting verb has room |
| Progress.WaitingCanProceed | crates/rdows-client/src/lib.rs:114-126 | in every run a verb that waits has a frame to send, to be handled or to read: no deadlock |
| Progress.StepUsesWork | crates/rdows-client/src/lib.rs:114-126 | every step that moves a frame of a waiting verb on lowers one measure, whichever the schedule picks |
| Progress.ScheduleIsBounded | crates/rdows-client/src/lib.rs:114-126 | no schedule of enabled steps is longer than the work there is |
| Progress.StoppedMeansReturned | crates/rdows-client/src/lib.rs:114-126 | a schedule of enabled steps that cannot be continued has ended the verb |
| Progress.VerbReturns | crates/rdows-client/src/lib.rs:114-126 | from any point of any run, moving frames on leads to the return of the verb |
| VerbOutcomes.AnswerReportsObstacle | crates/rdows-server/src/handler.rs:64-359 | the first answer to a verb, registrations included, reports the first check it fails, and is its own completion exactly when it fails none |
| VerbOutcomes.OutcomeIsDecided | crates/rdows-client/src/verbs.rs:27-408 | exactly how a verb ends, in every run: from the obstacle of its place's owner, the kinds of the two verbs, and for a read the L_Key and length of its sink |
| VerbOutcomes.OwnOutcomeIsDecided | crates/rdows-client/src/verbs.rs:27-408 | without a refused WRITE before it a verb fails with its own obstacle, and otherwise succeeds, or fails at its sink exactly as the sink says |
| AccessRights.RegistrationDecidesAccess | crates/rdows-server/src/handler.rs:223-359 | in every run a verb through a key meets exactly the obstacle that the verb which registered the key implies: dead key, missing flag, alignment or bounds |
| AccessRights.VerbWithoutFlagIsDenied | crates/rdows-client/tests/integration.rs:260-292 | a verb through a live key registered without its flag ends in ErrAccessDenied, without a refused WRITE before it |
| AccessRights.RequestsStayInDomain | crates/rdows-client/src/verbs.rs:27-100 | in every run all registrations and deregistrations carry the protection domain of the connection |
| ReadAfterWrite.ReadSeesWrite | crates/rdows-server/src/handler.rs:223-323 | a READ answered after a completed WRITE of the same range, with no verb writing into it in between, carries the data of the WRITE |
| EndToEnd.CompletedReadHoldsOwnersAnswer | crates/rdows-client/src/verbs.rs:251-324 | in every run a completed read leaves in the sink what the server answered to the owner of its place |
| EndToEnd.SinkHoldsWhatOwnerReadsBack | crates/rdows-client/src/verbs.rs:177-324 | in every run, refused WRITEs included, if the owner of a read's place reads back what a WRITE wrote, the sink holds the concatenation of the segments that WRITE gathered |
| EndToEnd.ReadReturnsWhatWasWritten | crates/rdows-client/src/verbs.rs:177-324 | without a refused WRITE before it, a completed read of the range of a WRITE that returned success fills the sink with the segments the WRITE gathered |
| Misread.RefusedWriteMisleadsRead | crates/rdows-server/src/handler.rs:230-269 | a run from a fresh connection in which a WRITE is refused, and later a WRITE and a READ of its range both return success while the sink holds other bytes |
| AtomicCounter.AtomicVerbsActOnOneCell | crates/rdows-client/src/verbs.rs:353-408 | in every run the word an atomic verb returns is that of a lone cell when the server came to the owner of the verb's place, and for fetch-and-adds the sum modulo 2^64 |
| AtomicCounter.SwapVerbsElectOne | crates/rdows-client/src/verbs.rs:329-408 | in every run, of the compare-and-swaps on a fresh word that expect zero, the one for which zero was returned stores its value, and every later word returned is that value |
| AtomicCounter.OwnAtomicTells | crates/rdows-client/src/verbs.rs:353-408 | without a refused WRITE before it an atomic verb owns its place, and returns a word exactly when the server performed it |
| Episodes.MovesDuring | crates/rdows-client/src/verbs.rs:27-408 | under any schedule of frame moves a verb either still waits with nothing changed or has ended as the response at its place makes it end |
| RemoteMemory.CleanEpisode | crates/rdows-client/src/verbs.rs:27-408 | between verbs and without a refused WRITE, a verb ends as the server's first answer to it makes it end, whatever the schedule |
| KvTable.HashKey | crates/rdows-kv/src/kv.rs:97-104 | the loop computes 32-bit FNV-1a modulo 64 |
| KvTable.FnvVectors | crates/rdows-kv/src/kv.rs:97-104 | the published FNV-1a values of the empty string, "a" and "foobar" |
| KvTable.ProbesAreConsecutive | crates/rdows-kv/src/kv.rs:253-258 | probing starts at the hash and goes on slot by slot, from 63 to 0 |
| KvTable.GetIsLookUp | crates/rdows-kv/src/kv.rs:294-317 | on a sound table (each key once, every slot from its hash to its place occupied) `get` is the lookup of the finite map |
| KvTable.PutUpdatesMap | crates/rdows-kv/src/kv.rs:247-292 | `put` that finds a place keeps the table sound and updates the map |
| KvTable.FullMeansOtherKeys | crates/rdows-kv/src/kv.rs:247-292 | `put` finds no place exactly when 64 other keys are stored |
| KvTable.DeleteExactEffect | crates/rdows-kv/src/kv.rs:319-361 | deleting a key leaves `get` of another stored key unchanged if and only if the freed slot is not on its probe path, and loses it otherwise |
| KvTable.DeleteKeepsSoundIff | crates/rdows-kv/src/kv.rs:319-361 | a delete keeps the table sound if and only if no other key's path crosses the freed slot |
| KvTable.SafeDeleteUpdatesMap | crates/rdows-kv/src/kv.rs:319-361 | such a delete removes the key from the map |
| KvTable.RunRefinesMap | crates/rdows-kv/src/kv.rs:247-361 | every run of puts, gets and safe deletes answers as the finite map does |
| KvTable.UnsafeDeleteLosesKey | crates/rdows-kv/src/kv.rs:336-338 | with two colliding keys, deleting the first makes `get` lose the second, which the map still holds |
| KvTable.KeysCollide | crates/rdows-kv/src/kv.rs:97-104 | two one-byte keys with the same hash |
| KvRegion.SlotRoundTrip | crates/rdows-kv/src/kv.rs:106-125 | a slot decodes to the key and value it was encoded from; its bytes are those of KvRegion.SlotIsWrittenByPosition |
| KvRegion.SlotIsReadByPosition | crates/rdows-kv/src/kv.rs:116-125 | any 1024 bytes read as status at 0, big-endian lengths at 1 and 3, key from 5, value from 260 |
| KvRegion.SlotIsWrittenByPosition | crates/rdows-kv/src/kv.rs:106-114 | a written slot holds exactly those bytes at those positions and zeros elsewhere |
| KvRegion.SlotWrite | crates/rdows-kv/src/kv.rs:223-245 | writing the bytes of one slot changes that slot of the table and no other |
| KvRegion.KvStepIsTableStep | crates/rdows-kv/src/kv.rs:247-361 | on an accessible region of 64 KiB each operation over the bytes is the operation on the decoded table |
| KvRegion.RegionRefinesMap | crates/rdows-kv/src/kv.rs:247-361 | from a fresh region, every run of puts, gets and safe deletes over the raw bytes answers as a finite map, and the bytes decode to a sound table for that map |
| KvStore.KvStore.constructor | crates/rdows-kv/src/kv.rs:180-195 | a store over an idle connection, with the keys of its two regions |
| KvStore.KvStore.RunVerb | crates/rdows-client/src/verbs.rs:177-324 | a verb runs to its end whichever frame moves next, and ends as the server's answer says |
| KvStore.KvStore.ReadSlot | crates/rdows-kv/src/kv.rs:203-221 | by a READ, a poll and the local region: the 1024 bytes of the slot in the server's store, which is unchanged |
| KvStore.KvStore.WriteSlot | crates/rdows-kv/src/kv.rs:223-245 | by the local region, a WRITE and a poll: the server's store with that slot written |
| KvStore.KvStore.Put | crates/rdows-kv/src/kv.rs:247-292 | reply and server store are those of the put on the raw bytes |
| KvStore.KvStore.Get | crates/rdows-kv/src/kv.rs:294-317 | reply is that of the get on the raw bytes |
| KvStore.KvStore.Delete | crates/rdows-kv/src/kv.rs:319-361 | reply and server store are those of the delete on the raw bytes |
| KvStore.KvStore.PerformAll | crates/rdows-kv/src/kv.rs:247-361 | a client that works through puts, gets and safe deletes over a fresh region, all of them verbs of one protocol run under any schedule, gets the replies of a finite map, and the region decodes to a sound table for that map |
| KvStore.Open | crates/rdows-kv/src/main.rs:43-58 | two registrations on a fresh connection that succeed give a store over an empty, accessible region |
| SessionTracker.Tracker.constructor | crates/rdows-server/src/lib.rs:48-49 | no counts, the given limit |
| SessionTracker.Tracker.Admit | crates/rdows-server/src/lib.rs:82-90 | counts and answer of the limit check |
| SessionTracker.Tracker.Release | crates/rdows-server/src/lib.rs:125-132 | counts after a place is given back |
| SessionTracker.TrackerIsExact | crates/rdows-server/src/lib.rs:80-135 | in every interleaving each address's count is its admitted and unreleased tasks, within the limit, with an entry exactly when positive if the limit is positive |
| SessionTracker.AdmittedIffRoom | crates/rdows-server/src/lib.rs:82-90 | in every interleaving a task is admitted if and only if its address holds fewer places than the limit |
| SessionTracker.ReleaseNeverUnderflows | crates/rdows-server/src/lib.rs:98-132 | a task about to release always finds a positive count |
| SessionTracker.ZeroLimitLeavesEntry | crates/rdows-server/src/lib.rs:82-90 | with a limit of zero an address turned away keeps an entry without tasks |

## Left out

- ServerMemory.MemoryStore.Register: `next_lkey` and the byte total are unbounded; the u32 counter is taken not to wrap and the sum of lengths not to exceed u64.
- ClientConnection.RdowsConnection.RecvAppMessage: credits are an unbounded integer where the program adds in u32; that they fit is proved for runs without a refused WRITE (CreditsBounded), not for a server that sends arbitrary credits.
- ProtocolInvariant.RunKeepsInv: frames beyond the negotiated size are left to SessionRuns, and so is a READ_RESP of 4 GiB or more, which can only be asked of a server whose byte limit allows it; its length field does not fit 32 bits.
- KvStore.KvStore.Put: what it promises is for a store whose region is accessible and whose connection had no WRITE refused; on any other connection it returns whatever error its first failing verb returns.
- KvStore.KvStore.Get: the same.
- KvStore.KvStore.Delete: the same.
- An offset plus a length beyond 64 bits panics in the client; here it is the error Overflow. A decoder that subtracts past zero panics too; here it is the error LengthUnderflow.
- Slot index, probe count, hex dump and `dump_slots` in the results of the key/value store: presentation.
- The completion-queue entry codec: nothing sends these entries, and its round trip is a shorter case of the header's.
- `disconnect`, `set_send_credits`, `len` and `is_empty`: one-line members.
- Sends that fail, connections that break in the middle of a verb, and tasks that panic.
- Lossy UTF-8 decoding: keys, values and descriptions are byte strings.
- TLS, the WebSocket upgrade, the HTTP interface, command lines, logging and the Wireshark dissector.
- The wording of ERROR descriptions: carried as constants, with no law about it.
- Quality of random keys and session ids.
- Fragmentation, ACK semantics and completion coalescing, which the written protocol describes and the code does not implement.
