# SLNT silent payments: a Dafny model

SLNT (sRFC-0042) lets a sender pay a one-time address that only the recipient can find and
spend from. This project models the four parts of the implementation whose guarantees span
several functions, and proves those guarantees over all inputs and all runs.

**The announcement pipeline.** `AnnounceService` is the service's bounded queue, as the class
the service shares between its handlers and its publisher, specified by functions on a value.
`Pinboard` is the on-chain program. `Pipeline` puts them together with the publisher loop and
the waiting wallets as a step system: the queue lock is released while the RPC call runs, a
transaction may land before, after or without the call reporting it, and wallets watch a
possibly stale prefix of the log. Anybody else may send requests and transactions too, with a
wallet's `R` in them or not. A disabled step changes nothing, so `Run(Init(...), steps)` for
arbitrary `steps` is every interleaving. `PipelineQueue`, `PipelineLedger` and
`PipelineCopies` prove what each step keeps; `PipelineWindow`, `PipelineTheorems`,
`PipelineAnnounce`, `PipelineFailure` and `PipelineProgress` draw the conclusions over runs.
`PublisherLoop` writes
the loop as code over the queue object and proves that, whatever handlers, wallets and the
chain do outside its locked sections, it performs exactly the steps its turns stand for.
`Dedup` is the recipients' deduplication.

**The stealth-key algebra.** `StealthGroup` represents edwards25519, cyclic of order 8 * ELL
(section 5.1 of RFC 8032), by discrete logarithms, with the base point 8; the subgroup checks,
labels and signatures become modular arithmetic. `Stealth` and `Signing` are the key, sender,
recipient and signing code over it. Hashes, the X25519 function and point compression are
uninterpreted; `Stealth.Lawful` states all that is assumed of them. `StealthSpec` says what all
of it computes, for any input, in terms of those primitives alone. `StealthTypescript` is the
second implementation.

**The codecs.** `Leb128`, `MetaAddressCodec` and `Wire` hold the Rust and the TypeScript
implementation of each format side by side, with JavaScript's 32-bit shifts and its reads past
the end of an array made explicit, and prove where exactly the two agree.

**Replicated views.** `Registry` is the registry program as a state machine over accounts and
events; `Indexer` is the bounded announcement store with the paging client its design document
describes, `IndexerLive` the same client while the store changes, and `IndexerReader` a
recipient who deduplicates what the pages give.

`EndToEnd` joins the pipeline and the algebra: when the recipient of a payment whose wallet has
stopped waiting finds it and can spend it, from the chain's own log or through the indexer.

## What the proofs showed about the code

- No status of a pending or in-flight id is ever lost if and only if
  `max_statuses >= max_pending + min(40, max_pending)` (`PipelineWindow.WindowExactly`). The
  defaults satisfy it; `with_caps` does not enforce it.
- Deduplication and the wallet both go by `R` alone. Somebody who learns `R`, the service
  included, can log another note with it first: the wallet stops on it and deduplication keeps
  only that one (`PipelineAnnounce.ForgedNoteWins`). A payment can still be delivered if and
  only if the first note logged with its `R`, if any, is the wallet's own
  (`PipelineAnnounce.RecoverableExactly`), which the wallet can see in its own view before it
  stops (`PipelineAnnounce.SurvivesExactly`); a recipient finds the payment if and only if that
  first note has the right view tag (`EndToEnd.PaymentFoundExactly`).
- A batch marked `failed` can still be landed by the service if and only if the failed call had
  broadcast its transaction (`PipelineFailure.FailedLandsExactly`); both cases occur
  (`PipelineFailure.FailsEitherWay`, `PublisherLoop.LateLandingHappens`). The design document
  calls the status terminal, which it is, but it does not say which of the two happened.
- Section 5.2.2 requires the minimal LEB128 spelling of a label; neither parser checks it.
  `MetaAddressCodec.AcceptedExactly` gives the set that is accepted and when it re-serializes;
  a two-byte zero is accepted and does not (`MetaAddressCodec.PaddedLabelAccepted`).
- The TypeScript varint decoder accepts five-byte varints of 2^32 and more that Rust rejects
  (`Leb128.DecodersAgreeExactly`, `Leb128.FifthByteOverflows`), and the TypeScript note parser
  accepts truncated or over-long event payloads that Rust rejects (`Wire.RustRejectsExactly`,
  `Wire.TruncatedNoteAccepted`).
- Paging the indexer by the last slot seen never ends exactly when some slot holds at least
  `limit` retained announcements (`Indexer.DrainEndsExactly`, `Indexer.FullSlotNeverEnds`).
- The service silently serves at most 10,000 rows. A client that asks for more and stops on a
  page shorter than it asked for has the whole backlog if and only if that fits in one such
  page (`Indexer.AskingTooMuchExactly`).
- A label whose tweak cancels the spend scalar publishes an address nobody can pay
  (`Stealth.PayableExactly`, `Stealth.LabelCanCancel`); `for_label` does not reject it.
- Where a scalar is zero the TypeScript SDK throws and the Rust SDK goes on. One candidate with
  a zero scalar costs the TypeScript scanner all the note's candidates
  (`StealthTypescript.TsScanNoteCandidates`). Inputs on which they part are given in
  `StealthTypescript.ZeroScalarThrows` and `Signing.ZeroNonceThrows`.

Where the code and its documents differ the model follows the code: the tweak tag has 13 bytes
(the comment at `crates/slnt-sdk/src/sender.rs:12` says 14); the indexer's store evicts
(`docs/srfc/design/indexer-service.md` calls it append-only).

## Model

| member | source | states |
|---|---|---|
| `Leb128.WriteLeb128U32` | crates/slnt-sdk/src/keys.rs:377-389 | appends the minimal encoding to the output buffer |
| `Leb128.ReadLeb128U32` | crates/slnt-sdk/src/keys.rs:392-406 | returns the base-128 value up to the first terminator in five bytes, or which limit was exceeded |
| `Leb128.TsLeb128Encode` | clients/typescript/src/keys.ts:249-259 | encodes the number coerced to 32 bits, in the same minimal bytes |
| `Leb128.TsLeb128Decode` | clients/typescript/src/keys.ts:261-271 | returns the value modulo 2^32, with no overflow error |
| `Leb128.VarintRoundTrip` | crates/slnt-sdk/src/keys.rs:376-406 | both decoders undo the encoders for every u32, whatever bytes follow |
| `Leb128.CanonicalVarint` | crates/slnt-sdk/src/keys.rs:391-406 | re-encoding an accepted varint gives its bytes back iff they were minimal |
| `Leb128.DecodersAgreeExactly` | clients/typescript/src/keys.ts:261-271 | the decoders differ exactly on five-byte varints whose last byte is at least 16, and how |
| `Leb128.FifthByteOverflows` | clients/typescript/src/keys.ts:261-271 | `80 80 80 80 10` is an error in Rust and 0 in TypeScript |
| `MetaAddressCodec.EncodePayload` | crates/slnt-sdk/src/keys.rs:288-294 | writes version, both keys, the minimal label varint and the flags, in order |
| `MetaAddressCodec.TsEncodePayload` | clients/typescript/src/keys.ts:183-190 | writes the same bytes as the Rust SDK |
| `MetaAddressCodec.PayloadRoundTrip` | crates/slnt-sdk/src/keys.rs:288-352 | 67 to 71 bytes, parsed back by both SDKs to the same address, or the version or flags error, for every label |
| `MetaAddressCodec.PayloadInjective` | crates/slnt-sdk/src/keys.rs:288-294 | different addresses never share a payload |
| `MetaAddressCodec.AcceptedExactly` | crates/slnt-sdk/src/keys.rs:309-351 | the accepted payloads are exactly the terminated spellings; one re-serializes to itself iff its varint is minimal |
| `MetaAddressCodec.RefusedEarlyExactly` | crates/slnt-sdk/src/keys.rs:309-335 | too short, wrong version or no varint end in five bytes, each with its error |
| `MetaAddressCodec.RefusedLateExactly` | crates/slnt-sdk/src/keys.rs:325-351 | the error for an overflowing label, a missing flags byte, trailing bytes or flags, by where the varint ends |
| `MetaAddressCodec.ParsersAgreeExactly` | clients/typescript/src/keys.ts:194-219 | TypeScript accepts all Rust accepts, with the same result, and more only on an overflowing fifth varint byte |
| `MetaAddressCodec.PaddedLabelAccepted` | crates/slnt-sdk/src/keys.rs:309-351 | for any keys, label 0 spelled `80 00` is accepted by both and does not re-serialize to itself |
| `Wire.ByteWriter.U16LE` | clients/typescript/src/anchor.ts:24-27 | appends the low 16 bits, little-endian |
| `Wire.ByteWriter.U32LE` | clients/typescript/src/anchor.ts:28-31 | appends the low 32 bits, little-endian |
| `Wire.ByteWriter.Bytes` | clients/typescript/src/anchor.ts:32-35 | appends the bytes one by one, unchanged |
| `Wire.ByteWriter.VecU8` | clients/typescript/src/anchor.ts:37-40 | appends the length prefix, then the bytes |
| `Wire.ByteReader.U16LE` | clients/typescript/src/anchor.ts:54-58 | reads 16 bits, missing bytes as zero, and advances by two even past the end |
| `Wire.ByteReader.U32LE` | clients/typescript/src/anchor.ts:59-69 | the or of signed shifts, made unsigned, is the little-endian value |
| `Wire.ByteReader.VecU8` | clients/typescript/src/anchor.ts:70-77 | reads a length-prefixed slice, clipped at the end of the data |
| `Wire.WritePostArgs` | clients/typescript/src/pinboard.ts:44-46 | appends exactly the note's Borsh encoding |
| `Wire.TsBuildPost` | clients/typescript/src/pinboard.ts:49-65 | the instruction data equals the Rust SDK's |
| `Wire.TsBuildPostBatch` | clients/typescript/src/pinboard.ts:73-89 | for every list of entries the instruction data equals the Rust SDK's, byte for byte |
| `Wire.TsTryParseNoteLog` | clients/typescript/src/pinboard.ts:97-117 | the parsed note for any payload, including short ones |
| `Wire.MissingBytesAreZero` | clients/typescript/src/anchor.ts:54-69 | words read past the end are those of the data padded with zeros |
| `Wire.ReadBatchBack` | clients/typescript/test/onchain.test.ts:86-93 | the matching reader calls return the entries written, with nothing remaining |
| `Wire.TakeNoteExactly` | crates/slnt-sdk/src/pinboard.rs:25-50 | deserialization succeeds exactly on serialized notes and returns that note and the rest |
| `Wire.BatchDecodesExactly` | crates/slnt-sdk/src/pinboard.rs:81-94 | a byte string decodes to a batch iff it starts with that batch's serialization |
| `Wire.BatchInjective` | crates/slnt-sdk/src/pinboard.rs:81-94 | different batches have different bytes |
| `Wire.BatchLength` | crates/slnt-sdk/src/pinboard.rs:81-94 | the body has 4 bytes plus 39 and the metadata for each entry |
| `Wire.NoteParsersAgree` | crates/slnt-sdk/src/pinboard.rs:101-119 | Rust yields a note exactly on its event bytes; there TypeScript yields the same note; both skip the same lines |
| `Wire.RustRejectsExactly` | crates/slnt-sdk/src/pinboard.rs:113-118 | among note events Rust rejects exactly those whose length field is not the number of bytes that follow |
| `Wire.TruncatedNoteAccepted` | clients/typescript/src/pinboard.ts:97-117 | any note event cut short anywhere is an error in Rust and a note in TypeScript |
| `Pinboard.GuardExactly` | programs/pinboard/src/lib.rs:48-70 | accepted are exactly one to 50 entries, or a post, with metadata of at most 64 bytes; which guard stops the rest |
| `Pinboard.Program.Post` | programs/pinboard/src/lib.rs:23-43 | logs the note iff its metadata fits, and otherwise changes nothing |
| `Pinboard.Program.PostBatch` | programs/pinboard/src/lib.rs:48-70 | logs every entry in order or none, and which guard failed |
| `Pinboard.DispatchesWhatWasBuilt` | crates/slnt-sdk/src/pinboard.rs:53-94 | the program decodes the very instruction the SDK built |
| `Pinboard.AcceptedIsDispatched` | programs/pinboard/src/lib.rs:48-70 | whatever batch passes the guards also survives serialization to the program |
| `Dedup.DedupByEphemeralPub` | crates/slnt-sdk/src/announce.rs:99-108 | the hash-set loop keeps a note iff its key did not occur before it |
| `Dedup.DedupedAreFirst` | crates/slnt-sdk/src/announce.rs:96-108 | the survivors are exactly the first note of each key |
| `Dedup.DedupedInOrder` | crates/slnt-sdk/src/announce.rs:96-108 | survivors are in the order their keys were first seen |
| `Dedup.DedupedOncePerKey` | crates/slnt-sdk/src/announce.rs:96-108 | every key seen survives exactly once, and no other |
| `Dedup.DedupedAppend` | crates/slnt-sdk/src/announce.rs:99-108 | deduplicating a stream piece by piece agrees with deduplicating it at once |
| `Dedup.DedupedIdempotent` | crates/slnt-sdk/src/announce.rs:99-108 | deduplicating twice changes nothing |
| `AnnounceService.RequestRoundTrip` | crates/slnt-announcer/src/service.rs:22-48 | the service recovers the wallet's announcement from its request, or names the limit broken |
| `AnnounceService.RequestAcceptedExactly` | crates/slnt-announcer/src/service.rs:22-48 | which of all requests are accepted, and as which entry |
| `AnnounceService.RequestRefusedExactly` | crates/slnt-announcer/src/service.rs:22-48 | the check each refused request fails first |
| `AnnounceService.AnnounceQueue.Enqueue` | crates/slnt-announcer/src/service.rs:96-105 | a full queue refuses and changes nothing; otherwise the next id is appended and `Pending` |
| `AnnounceService.AnnounceQueue.TakePending` | crates/slnt-announcer/src/service.rs:108-111 | the batch and what stays pending are the old queue, in order |
| `AnnounceService.AnnounceQueue.SetStatus` | crates/slnt-announcer/src/service.rs:113-124 | the history becomes the most recent ids, the rest unchanged, and the id just set reads back |
| `AnnounceService.PostAnnounce` | crates/slnt-announcer/src/main.rs:93-109 | an invalid request leaves the queue alone; a valid one is enqueued or refused as full |
| `AnnounceService.MarkBatch` | crates/slnt-announcer/src/main.rs:161-173 | every id of the batch gets the one outcome, in order |
| `AnnounceService.AnyCallsKeepValid` | crates/slnt-announcer/src/service.rs:83-128 | after any calls with any ids the order lists each status once, within the cap, and a status set reads back |
| `PublisherLoop.PublisherTurn` | crates/slnt-announcer/src/main.rs:143-174 | a turn over the shared objects is exactly its steps, with any handlers, wallets and transactions, earlier turns' included, between its locked sections |
| `PublisherLoop.PublisherLoop` | crates/slnt-announcer/src/main.rs:141-175 | any number of such turns leaves queue and chain where the step system's run leaves them |
| `PublisherLoop.World` | crates/slnt-announcer/src/main.rs:93-109 | handlers and program code run outside the lock have exactly the effect of their steps and leave the publisher where it was |
| `PublisherLoop.LateLandingHappens` | crates/slnt-announcer/src/main.rs:151-172 | two possible turns of the loop after which a batch is marked failed and yet in the log |
| `PipelineWindow.RunFifo` | crates/slnt-announcer/src/main.rs:145-161 | in every run finished batches, the batch in flight and the pending entries are the accepted entries with ids 0, 1, 2, ... |
| `PipelineQueue.FifoStep` | crates/slnt-announcer/src/service.rs:96-111 | every step of every party keeps that conservation |
| `PipelineQueue.StatusStep` | crates/slnt-announcer/src/service.rs:113-124 | every step keeps each retained status equal to the one its batch's history assigns |
| `PipelineWindow.RoomGivesWindow` | crates/slnt-announcer/src/service.rs:113-124 | with room, in every run exactly the most recent ids have a status, in order, and no pending or in-flight id is missing |
| `PipelineWindow.NoRoomLosesStatus` | crates/slnt-announcer/src/service.rs:83-92 | without room, for all caps, a run that evicts an in-flight id |
| `PipelineWindow.WindowExactly` | crates/slnt-announcer/src/service.rs:83-124 | no run loses a pending or in-flight status iff the caps leave room for a full queue and a largest batch |
| `PipelineWindow.DefaultsHaveRoom` | crates/slnt-announcer/src/service.rs:8-14 | the default caps leave that room |
| `PipelineWindow.IdsCountSteps` | crates/slnt-announcer/src/service.rs:96-105 | after n steps of any run the next id is at most n, so a 64-bit counter cannot wrap before 2^64 steps |
| `PipelineLedger.LedgerStep` | programs/pinboard/src/lib.rs:48-70 | every step keeps receipts honest, service transactions tied to their batches, and no transaction of the service or a wallet failing a guard |
| `PipelineCopies.CirculatingStep` | crates/slnt-announcer/src/main.rs:141-175 | no step adds copies of a note except a request, another party's transaction or a self-announcement |
| `PipelineCopies.CopiesStep` | crates/slnt-announcer/src/main.rs:141-175 | every step keeps each copy of a note with a wallet's `R` accounted to that wallet's request, its own post, or somebody else |
| `PipelineTheorems.EveryRunKeeps` | crates/slnt-announcer/src/main.rs:141-175 | all the invariants hold in every run |
| `PipelineAnnounce.AnnouncedOnceAfterDedup` | crates/slnt-sdk/src/announce.rs:83-108 | each `R` is logged at most once for the request, once for the own post and once per copy others offer; dedup leaves one note, the wallet's own iff it came first, as it does if nobody else used `R`; a stopped wallet's `R` is there |
| `PipelineAnnounce.SurvivesExactly` | crates/slnt-sdk/src/announce.rs:83-108 | once the wallet's view shows `R`, its note survives dedup in every later log iff it is first in that view |
| `PipelineAnnounce.RecoverableExactly` | crates/slnt-sdk/src/announce.rs:83-94 | some continuation delivers the wallet's note through dedup iff the log's first note with `R`, if any, is its own; always if nobody else used `R` |
| `PipelineAnnounce.SelfAnnouncesExactly` | crates/slnt-sdk/src/announce.rs:83-94 | in every run a wallet posts itself at a step iff it still waits, has not posted, the timeout is over and what it has watched does not show `R`; then it posts its own note |
| `PipelineAnnounce.SelfPostWaited` | crates/slnt-sdk/src/announce.rs:83-94 | in every run a wallet that has posted itself had waited for the timeout |
| `PipelineProgress.ServiceCanFinish` | crates/slnt-announcer/src/main.rs:143-174 | from every reachable state the publisher and the chain can finish everything accepted; all that was undecided ends confirmed and logged |
| `PipelineProgress.ServiceSuffices` | crates/slnt-sdk/src/announce.rs:4-9 | while a request can still be queued and nobody else used `R`, some continuation delivers the note without a self-post |
| `PipelineProgress.ReportIsRead` | crates/slnt-announcer/src/main.rs:161-173 | with room, after a success report every id of the batch reads confirmed with its signature, after an error failed with its reason |
| `PipelineAnnounce.ForgedNoteWins` | crates/slnt-sdk/src/announce.rs:83-108 | for any two notes with one `R`, a run in which the wallet stops on the other party's and dedup keeps only that |
| `PipelineTheorems.HonestTransactionsNeverRejected` | programs/pinboard/src/lib.rs:48-70 | no transaction of the service or a wallet is ever rejected, the program decodes what the service serialized, and one that landed stands in the log in order |
| `PipelineTheorems.BatchSharesOutcome` | crates/slnt-announcer/src/main.rs:162-173 | retained ids of one drained batch all have its outcome |
| `PipelineTheorems.ConfirmedIsOnChain` | crates/slnt-announcer/src/main.rs:162-167 | a confirmed id's note, and its batch, are in the chain log |
| `PipelineTheorems.FinalStatusNeverChanges` | crates/slnt-announcer/src/service.rs:113-124 | a status that left `Pending` is the same whenever it is read later |
| `PipelineFailure.AttributedStep` | crates/slnt-announcer/src/main.rs:150-173 | every step keeps each service transaction attributed to the one batch, in flight or finished, it was built from |
| `PipelineFailure.FailedLandsExactly` | crates/slnt-announcer/src/main.rs:151-172 | the service can land, or has landed, an id of a failed batch iff the failed call had broadcast a transaction |
| `PipelineFailure.FailsEitherWay` | crates/slnt-announcer/src/main.rs:151-172 | runs with a failed batch of either kind exist, for all caps |
| `StealthGroup.SubgroupCheckExact` | crates/slnt-sdk/src/sender.rs:45-47 | over the whole group the two checks accept exactly the k * G with k not divisible by ELL |
| `Stealth.KeysFromSecretsExactly` | crates/slnt-sdk/src/keys.rs:180-206 | fails iff the spend secret is 0 modulo ELL, and otherwise yields a consistent key pair with that scalar |
| `Stealth.PublishedKey` | crates/slnt-sdk/src/keys.rs:273-286 | the published spend key is the effective scalar times the base point, for every label |
| `StealthSpec.LabelledAddressIs` | crates/slnt-sdk/src/keys.rs:273-286 | from the raw secrets: the address under a label has secret b plus the hash of the scan material and that label's varint |
| `StealthSpec.LabelsCollideExactly` | crates/slnt-sdk/src/keys.rs:364-375 | two labels share an address iff the hash gives them one tweak, and different labels ask it for different inputs |
| `StealthSpec.SendsExactly` | crates/slnt-sdk/src/sender.rs:29-60 | for any address: paid iff version 1, flags 0, key in the prime-order subgroup and not the identity, shared secret not all zero; which error otherwise |
| `StealthSpec.TorsionRefused` | crates/slnt-sdk/src/sender.rs:45-47 | a key with any torsion component is refused |
| `StealthSpec.PaysExactly` | crates/slnt-sdk/src/sender.rs:49-77 | for any payable address, the one-time address, ephemeral key and view tag as hashes of the shared secret |
| `Stealth.PayableExactly` | crates/slnt-sdk/src/sender.rs:29-77 | which error or payment a sender gets on any published address: rejected iff its effective scalar is 0 |
| `Stealth.LabelCanCancel` | crates/slnt-sdk/src/keys.rs:273-286 | lawful primitives and a key pair for which every labelled address is rejected and the unlabelled one is not |
| `Stealth.ScanNoteCandidates` | crates/slnt-sdk/src/recipient.rs:75-116 | nothing unless the tag matches, else one candidate for label 0 and one per non-zero known label, in order |
| `Stealth.LabelledAgreement` | crates/slnt-sdk/src/recipient.rs:68-121 | for every payable label known to the recipient a candidate has the payment's address and its private scalar |
| `Stealth.PaymentTag` | crates/slnt-sdk/src/recipient.rs:123-137 | the recipient's filter passes a note with a payment's `R` iff it carries the payment's view tag |
| `StealthSpec.MatchesExactly` | crates/slnt-sdk/src/recipient.rs:123-137 | for any note the filter passes iff the secret is not all zero and its hash starts with the tag |
| `StealthSpec.CandidateScalarIs` | crates/slnt-sdk/src/recipient.rs:92-121 | for any note, each candidate's scalar and address from spend secret, label tweak and payment tweak |
| `Stealth.FilterRefinesScan` | crates/slnt-sdk/src/recipient.rs:32-137 | the view-only filter on a rebuilt key passes iff either scan matches, and the first candidate is that match |
| `Stealth.DelegationLosesNothing` | crates/slnt-sdk/src/recipient.rs:123-137 | filtering any log with the view-only scanner leaves the candidates unchanged |
| `Signing.VerifiesExactly` | crates/slnt-sdk/src/stealth_signing.rs:63-101 | for a given nonce a signature verifies iff its scalar is the one `sign` computes |
| `Signing.SignaturesVerify` | crates/slnt-sdk/src/stealth_signing.rs:33-101 | every signature verifies, with s below ELL and s * G = R + k * A, k the hash of R, A and the message |
| `Signing.PrefixIs` | crates/slnt-sdk/src/stealth_signing.rs:33-53 | the key's prefix is bytes 32 to 64 of the hash of the tag and the scalar, its public bytes the scalar's address |
| `Signing.NonceIs` | crates/slnt-sdk/src/stealth_signing.rs:63-80 | R is the base point times the hash of the prefix and the whole message |
| `Signing.NoncesRepeatExactly` | crates/slnt-sdk/src/stealth_signing.rs:63-80 | two messages share a nonce iff that hash does, and different messages ask it for different inputs |
| `Signing.TsSignsTheSame` | clients/typescript/src/signing.ts:24-42 | the TypeScript signature is the same 64 bytes unless the scalar or the nonce is zero |
| `Signing.CandidatesSpendable` | crates/slnt-sdk/src/recipient.rs:92-121 | candidates come in label order and each one's scalar signs verifiably for its address |
| `StealthTypescript.TsDerivesTheSameKeys` | clients/typescript/src/keys.ts:97-105 | the same keys or the same error as Rust, for all secrets |
| `StealthTypescript.TsPublishesTheSame` | clients/typescript/src/keys.ts:169-181 | the same labelled address as Rust, unless the label's tweak is zero and it throws |
| `StealthTypescript.TsPaysTheSame` | clients/typescript/src/sender.ts:45-94 | for every address the same payment or error as Rust, unless the payment's tweak is zero and it throws |
| `StealthTypescript.TsScanNoteCandidates` | clients/typescript/src/recipient.ts:48-76 | the same candidates as Rust in the same order, unless some candidate's scalar is zero and it throws |
| `StealthTypescript.ZeroScalarThrows` | clients/typescript/src/recipient.ts:48-76 | lawful primitives under which Rust sends and TypeScript throws, and one zero candidate hides the unlabelled one |
| `Signing.ZeroNonceThrows` | clients/typescript/src/signing.ts:34-42 | lawful primitives under which every nonce is zero and the TypeScript signer throws |
| `Signing.RecoveredKeySigns` | crates/slnt-sdk/src/stealth_signing.rs:21-61 | the key recovered by scanning signs for the address the sender paid |
| `Registry.Program.Process` | programs/registry/src/lib.rs:60-115 | accounts and events after any transaction, changed only if every constraint and check passed |
| `Registry.Program.Register` | programs/registry/src/lib.rs:9-36 | the created entry and its event, or the first failed check and no change |
| `Registry.Program.Update` | programs/registry/src/lib.rs:38-58 | overwrites the four payload fields only, with its event, or changes nothing |
| `Registry.SeparateExactly` | programs/registry/src/lib.rs:79-80 | a set of pairs can have separate 32-byte addresses iff it has at most 2^256 elements |
| `Registry.ConstraintsAtHome` | programs/registry/src/lib.rs:69-115 | the account constraints hold iff signed, at the pair's own address, and it exists or not as required |
| `Registry.OnlyTheSignerChanges` | programs/registry/src/lib.rs:87-115 | a transaction changes at most the pair it names, and only signed by that registrant |
| `Registry.EventsReplayToAccounts` | programs/registry/src/lib.rs:9-67 | replaying the events never gets stuck and gives exactly the live entries, each valid and at its own address |
| `Registry.SucceedsExactly` | programs/registry/src/lib.rs:9-115 | the event log alone decides the outcome of any transaction: which succeed, for every scheme but 0, and which error the others get |
| `Registry.SuccessTakesEffect` | programs/registry/src/lib.rs:9-67 | a transaction that succeeds leaves its pair with exactly its payload, or nothing, and adds its one event |
| `Indexer.AnnouncementStore.Insert` | crates/slnt-indexer/src/store.rs:87-93 | the store is the last `cap` insertions and `dropped` counts all others |
| `Indexer.AnnouncementStore.QueryStored` | crates/slnt-indexer/src/store.rs:97-104 | a query answers from the last `cap` of everything ever inserted |
| `Indexer.PageIs` | crates/slnt-indexer/src/store.rs:97-104 | on a store in slot order a page is the stretch of at most `limit` from the first slot not before `since` |
| `Indexer.DrainCovers` | docs/srfc/design/indexer-service.md:153-160 | a drain that ends fetched exactly the retained announcements from its start on |
| `Indexer.DrainEndsExactly` | docs/srfc/design/indexer-service.md:153-160 | the paging client ends iff no slot from its start on holds a whole page |
| `Indexer.DrainOfStore` | docs/srfc/design/indexer-service.md:153-160 | both, for a store fed in slot order with any cap that does not change meanwhile |
| `Indexer.AskingTooMuchExactly` | crates/slnt-indexer/src/main.rs:95-102 | asking for at most the maximum drains as above; asking for more stops after one page, with everything iff the backlog fits in it |
| `IndexerLive.LiveDrainCovers` | docs/srfc/design/indexer-service.md:153-160 | while the store inserts and evicts between pages, a drain that ends has fetched everything from its start on that is then retained, and only what was inserted |
| `IndexerLive.LiveDrainEnds` | docs/srfc/design/indexer-service.md:153-160 | it ends if no slot from its start on is crowded in all that was inserted, within one page more than there are announcements from its start on |
| `IndexerLive.LiveDrainStuck` | docs/srfc/design/indexer-service.md:153-160 | it does not end while a crowded slot stays in the store |
| `IndexerReader.DrainDedups` | docs/srfc/design/indexer-service.md:153-160 | overlapping pages deduplicate to exactly what the retained announcements from the start on do, first notes and order included |
| `IndexerReader.IndexedLogDedups` | crates/slnt-indexer/src/store.rs:87-104 | reading a log through the indexer leaves the deduplicated log from the first note retained and not before the start |
| `Indexer.FullSlotNeverEnds` | docs/srfc/design/indexer-service.md:153-160 | two announcements of one slot stop a client asking for two at a time |
| `EndToEnd.AnnouncesExactly` | crates/slnt-sdk/src/announce.rs:41-51 | which announcement a payment becomes: its key and tag, scheme 1 and the metadata given, or the length error |
| `EndToEnd.ServiceAcceptsExactly` | crates/slnt-announcer/src/service.rs:22-48 | what the step system lets in is exactly what validation accepts |
| `EndToEnd.ServiceAcceptsPayments` | crates/slnt-sdk/src/announce.rs:41-51 | whatever a wallet announces passes the service's validation unchanged |
| `EndToEnd.PaymentFoundExactly` | docs/srfc/0001-slnt-silent-payments.md:444-446 | once the wallet has stopped waiting, a recipient who dedups, delegates the filter and scans finds the payment under its `R`, with a key that signs for it, iff the first note with `R` has its view tag, as it has if nobody else used `R` |
| `EndToEnd.PaymentCanBeHidden` | docs/srfc/0001-slnt-silent-payments.md:444-446 | for every payment a run in which the wallet stops and the recipient does not find it |
| `EndToEnd.IndexedPaymentFoundExactly` | docs/srfc/0001-slnt-silent-payments.md:473-477 | a recipient who pages through the indexer finds the payment under its `R` iff the first note with `R` among those retained and not before the start has its view tag; among all notes if nothing was evicted |

## Left out

- AnnounceService.AnnounceQueue.Enqueue: ids are unbounded; the source's u64 cannot wrap in fewer than 2^64 requests (`PipelineWindow.IdsCountSteps`), and what it does after that is not modelled.
- PipelineAnnounce.RecoverableExactly: says that a continuation exists, not that the chain or the wallet's device takes it; timing and fairness are not modelled.
- Registry.EventsReplayToAccounts: assumes that the pairs the transactions name have different derived addresses; what happens on a hash collision is not modelled.
- Registry.Program.Process: Anchor's own checks are one error, `AccountConstraint`, without their order; rent, payer balance and account sizes are not modelled.
- Indexer.DrainOfStore: the store does not change between two pages of one drain.
- IndexerLive.LiveDrainEnds: between it and `IndexerLive.LiveDrainStuck`, when a crowded slot is evicted during the drain, whether the drain ends depends on how fast the feed is.
- Wire.TsBuildPostBatch: entries are well typed (a 16-bit scheme, a 32-byte key); what the TypeScript writer emits for other numbers is stated only for its field writers.
- StealthTypescript.TsPublishesTheSame: labels are 32-bit numbers; `metaForLabel` derives from other numbers as if coerced, but keeps the number given in its result.
- Hash functions, HKDF, X25519, point compression and SLIP-0010: uninterpreted, because their internals are other standards' subject; no property here depends on them beyond `Stealth.Lawful`.
- bech32m, base58 and base64: libraries, taken as inverse pairs; the human-readable-part check of a meta-address belongs to that layer.
- The HKDF step of key derivation, HD paths, canonical messages and the two-signature determinism guard: each is one call or one comparison.
- HTTP routing, RPC transport, reconnection, lock poisoning and key files: only the lock-scoped effects are modelled, and RPC results are arbitrary.
- Log lines of failed transactions: the chain log holds the notes of executed transactions only.
- Payment and sweep instruction building (`flows.rs`, `sweep.rs` and their TypeScript twins): each is one checked addition or subtraction.
- The registry client, the CLI, the demos and the site: no state of their own.
- Unlinkability: a computational claim, outside what this model can express.
