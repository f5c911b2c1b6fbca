# Robot multi-camera backend: a verified model

The repository moves synchronized camera frames and robot features from an edge
computer to a Receiver, a web relay and a dataset builder. This project models the
parts of it that carry a protocol or a state machine and proves what they promise:

- **SEI codec**: Annex-B framing, emulation prevention, ff-coded sizes, the two
  injectors and the inspector (`Emulation`, `AnnexB`, `Framing`, `Sei`, `AccessUnit`,
  `Injection`).
- **Manifest transfer**: chunking, the sender's repeating schedule, the reassembler and
  the Receiver's per-session use of it (`Manifest`, `LateJoin`).
- **Receiver**: signed stream identities (`Text`, `Base64`, `Utf8`, `StreamIdentity`,
  `Authenticity`), the stream registry and its bounded ingest queue (`IngestQueue`,
  `Registry`, `AdmissionRuns`, `Delivery`), manifest validation (`SessionManifest`,
  `Judgement`, `Catalog`) and the step synchronizer (`Synchronizer`, `StepQueues`,
  `FrameUse`).
- **Feature path**: layout compiler, sample rings, context assembly, the Receiver's layout
  test and the relay's projection (`Layout`, `Compilation`, `FeatureRing`, `FeatureRuns`,
  `Context`).
- **State machines beside it**: control leases, episodes, camera slots, the clock mapper,
  the relay's history-plus-live hand-over and fixed-grid frame selection (`Control`,
  `ControlRuns`, `Episodes`, `EpisodePhases`, `CameraMap`, `ClockMapper`, `ClockRuns`,
  `SseHandover`, `FixedGrid`).

Code that updates fields or loops is a class or a method proved equal to a step function;
the theorems are about every run of those step functions: what stays true, and what each
operation answers and leaves behind, from its inputs and the log of the run alone. Foreign
primitives are parameters: the timestamp decoder (`ReadsTimestamps`, met by
`CanonicalTimestamp`), zstd and CRC32C (`Library.Lawful`), HMAC-SHA256 (`Mac`), the schema
digest (`SchemaId`), fresh UUIDs and all clocks. Machine arithmetic is written out where it
matters (saturating counters, `usize` and `u32` limits, the wrapping device number).

Findings, each with its exact condition and, where it is a failure, a run or input that shows it:

- A refusal for conflict, limits or timeout changes the reassembler exactly when the chunk
  completes it with an unknown compression (`RefusalChangesStateExactlyWhen`,
  `UnknownCompressionIsStored`).
- A session whose reassembler timed out, or that recorded a new revision on a chunk its
  reassembler's constructor refused, refuses that revision without any change until a chunk
  of another revision above the adopted one comes, and is ready again exactly then
  (`StaysStuck`, `ReadyAgainExactlyWhen`, `BlockedExactlyWhen`, `AnotherRevisionRecovers`).
- An ingest queue configured for zero frames keeps one (`ZeroFramesKeepsOne`).
- The bounded ring gives what the full history gives, for every method and gap, exactly when
  a valid kept sample is at or before the time or nothing valid was evicted
  (`RingAgreesExactlyWhen`).
- A layout that compiles is accepted by the Receiver exactly when no feature is empty and the
  feature ids are distinct and non-zero; two adapters that share an id are refused
  (`ReceiverAcceptsCompiled`, `SharedIdIsRefused`).
- A frame is in at most as many steps as it was accepted, so it is reused only if it is
  accepted again; a camera's chosen times increase when every accepted frame is past what the
  camera gave before. Neither is enforced by the synchronizer: any two frames of a camera can
  follow each other (`UsedAtMostAccepted`, `NoReuse`, `PastHorizonExactlyWhen`,
  `AnyTwoFramesFollow`). One connection per camera gives both (`DeliveriesFeedInOrder`).
- The command history is the latest id and the largest ids before it, so an executed id is
  accepted again exactly when it is not the latest and enough larger ids were executed before
  the latest (`AcceptedAgainExactlyWhen`, `RepeatIsExecuted`).
- An episode can exceed its capacity exactly when the pre-roll is larger (`BoundedExactlyWhen`).
- After a take or a schema update any time is admitted, so two episodes can hold the same step
  or run backwards (`AdmittedExactlyWhen`, `NeverBackExactlyWhen`, `AnyTwoEpisodesFollow`).
- A SEI payload of type 128 ends the parsing of its unit, and so hides every message after it
  (`ParseWritten`).
- Additions with a UUID the access unit already has are refused only if it has a timestamp
  (`UserDataExactlyWhen`).
- A shape is refused when a leading part of it multiplies past 32 bits, even if a later zero
  would cancel it (`ShapeLengthIs`).
- Angle brackets stay unescaped in a stream identity (`EncodedOctetIs`).
- Two cameras that differ only in an absent versus an empty field have one identity
  (`IdentityIsInjective`).

## Model

| member | source | states |
|---|---|---|
| Emulation.UnescapeEscape | crates/metadata-codec/src/lib.rs:201-243 | removing emulation prevention undoes adding it, for every byte string and every run of zeros before it |
| Emulation.EscapeIsClean | crates/metadata-codec/src/lib.rs:201-217 | an escaped string never holds 00 00 00, 00 00 01 or 00 00 02, also across the zeros that precede it |
| Emulation.AddEmulationPrevention | crates/metadata-codec/src/lib.rs:201-217 | the escaping loop's output is clean and is read back as its input |
| Emulation.RemoveEmulationPrevention | crates/metadata-codec/src/lib.rs:219-243 | the unescaping loop, with its refusals, is the specification the round trip is about |
| Emulation.UnescapeExactly | crates/metadata-codec/src/lib.rs:219-243 | by position: unescaping drops exactly the bytes 03 right behind two zero bytes, and fails if and only if one of them is not followed by a byte of at most 03 |
| Emulation.EscapeUnescape | crates/metadata-codec/src/lib.rs:201-243 | a string free of start-code emulation that unescapes is the escaped form of what it unescapes to |
| AnnexB.StartCodes | crates/metadata-codec/src/lib.rs:314-329 | the scan finds the three- and four-byte start codes of the specification |
| AnnexB.SplitAnnexB | crates/metadata-codec/src/lib.rs:293-312 | the split loop and its two errors are the specification's |
| AnnexB.SplitJoin | crates/metadata-codec/src/lib.rs:293-329 | splitting the four-byte-prefixed join of non-empty payloads free of 00 00 01 returns exactly those payloads |
| AnnexB.SplitIsFramable | crates/metadata-codec/src/lib.rs:293-329 | every payload a split returns is non-empty and free of 00 00 01 |
| AnnexB.ReframeIsLossless | crates/metadata-codec/src/lib.rs:120-128 | rewriting every start code to four bytes keeps every unit, whatever mix of codes came in |
| Framing.SplitExactly | crates/metadata-codec/src/lib.rs:293-329 | a byte string splits into given units if and only if it is bytes without a start code followed by these units, each behind a three- or four-byte code, a three-byte one never right behind a zero |
| Sei.TakeFfOfFf | crates/metadata-codec/src/lib.rs:193-287 | an ff-coded number inside any buffer is read back with the position behind it |
| Sei.TakeFfExactly | crates/metadata-codec/src/lib.rs:275-287 | a number is read with a position behind it if and only if its ff form stands there and it fits `usize` |
| Sei.PushFfEncoded | crates/metadata-codec/src/lib.rs:193-199 | the loop appends the ff form |
| Sei.TakeFfEncoded | crates/metadata-codec/src/lib.rs:275-287 | the loop reads the ff form, refusing overflow and a missing end |
| Sei.MakeUserDataSei | crates/metadata-codec/src/lib.rs:176-191 | the unit built is the escaped specification unit behind a four-byte start code, or the overflow error |
| Sei.ParseSeiUnit | crates/metadata-codec/src/lib.rs:245-273 | the cursor loop over the payloads of one unit is the specification's parser |
| Sei.ParseSeiNal | crates/metadata-codec/src/lib.rs:176-273 | parsing a built unit gives back exactly its one message |
| Sei.SeiNalIsFramable | crates/metadata-codec/src/lib.rs:176-191 | a built unit can be framed without being cut |
| Sei.ParseWritten | crates/metadata-codec/src/lib.rs:245-273 | a unit of any payloads of any types is read as exactly its user-data messages in order, up to the first payload of type 128; one too short for its UUID fails it |
| AccessUnit.LittleEndianRoundTrip | crates/metadata-codec/src/lib.rs:49-71 | fixed-width little-endian bytes are read back |
| AccessUnit.CanonicalReadsTimestamps | crates/metadata-codec/src/lib.rs:49-71 | the nine-byte timestamp message has a decoder meeting the law asked of decoders |
| AccessUnit.InspectH264 | crates/metadata-codec/src/lib.rs:131-170 | the inspecting loops are the specification's inspector, with its message limit and error order; `InspectMeans` gives the verdict by UUID |
| AccessUnit.CollectMessages | crates/metadata-codec/src/lib.rs:138-147 | all messages of all SEI units in order, or failure on a malformed unit or more than 64 messages |
| AccessUnit.InspectMeans | crates/metadata-codec/src/lib.rs:131-170 | the verdict from the messages and their UUIDs alone: nothing without a timestamp message, the count error with several; with one, a secondary stream is refused with the UUID of its first context or manifest message, and otherwise the size, the decoding and the value of the timestamp decide |
| AccessUnit.InjectTimestampH264 | crates/metadata-codec/src/lib.rs:106-129 | the injecting loop writes the specification's unit or its error |
| AccessUnit.InjectUserDataH264 | crates/metadata-codec/src/metadata_ext.rs:40-77 | the same for the additions |
| Injection.TimestampExactlyWhen | crates/metadata-codec/src/lib.rs:106-129 | a timestamp is written if and only if the unit parses, has none and the time is not zero, each refusal with its error; one SEI unit in front of the first slice, or of everything, is then the only change |
| Injection.UserDataExactlyWhen | crates/metadata-codec/src/metadata_ext.rs:40-77 | additions are written if and only if the unit parses, shares no UUID with them if it has a timestamp, and each fits, each refusal with its error; one SEI unit per addition at that place is then the only change |
| AccessUnit.EnrichThenInspect | crates/metadata-codec/src/metadata_ext.rs:40-77 | for anchor and secondary streams, timestamp then additions then inspect gives exactly the time and the old messages with timestamp and additions inserted at the first slice, and every original unit is unchanged |
| AccessUnit.InspectEnriched | crates/metadata-codec/src/lib.rs:131-170 | the inspector on units enriched at any position: the time and every message, the refusal beyond 64 messages, and for a secondary stream the refusal with the UUID of the first context or manifest message |
| AccessUnit.SecondTimestampFails | crates/metadata-codec/src/lib.rs:106-129 | every clean access unit, with or without a slice, refuses a second timestamp, with which error |
| AccessUnit.BareSliceIsClean | crates/metadata-codec/src/lib.rs:131-170 | every access unit of one slice meets the conditions of enriching |
| Manifest.PiecesFlatten | crates/metadata-codec/src/metadata_ext.rs:79-129 | the chunk payloads are non-empty, bounded and concatenate to the encoded manifest |
| Manifest.CutExactlyWhen | crates/metadata-codec/src/metadata_ext.rs:79-129 | a manifest is cut up if and only if the session id has 16 bytes, the manifest 1 to 262144, and its encoding exists, has 1 to 262144 bytes and is at most 16 times smaller |
| Manifest.CutInto | crates/metadata-codec/src/metadata_ext.rs:79-129 | chunk i carries the encoded bytes from 8192 i on, under one header with session, revision, count, compression, size and checksum |
| Manifest.StartsExactlyWhen | crates/metadata-codec/src/metadata_ext.rs:146-170 | a reassembler is started if and only if every field of the first chunk is within its limits and, if it is the only one, it decodes; and then it holds exactly that chunk |
| Manifest.ManifestReassembler.New | crates/metadata-codec/src/metadata_ext.rs:146-170 | a reassembler starts empty on a valid first chunk and is refused otherwise |
| Manifest.ManifestReassembler.Insert | crates/metadata-codec/src/metadata_ext.rs:172-232 | the object's insert is the step function and keeps the invariant |
| Manifest.Concatenate | crates/metadata-codec/src/metadata_ext.rs:210-215 | the stored chunks are concatenated in index order |
| Manifest.InsertKeepsValid | crates/metadata-codec/src/metadata_ext.rs:172-232 | the byte total is always the sum of the stored chunks, and exactly which failed inserts change the state |
| Manifest.CompletesExactlyWhen | crates/metadata-codec/src/metadata_ext.rs:172-277 | whatever chunks came, bytes are handed out if and only if the chunk belongs here, no slot stays free, and the stored payloads in index order stand for these bytes with the announced size and checksum |
| Manifest.ByteLimitUnreachable | crates/metadata-codec/src/metadata_ext.rs:197-203 | with the configured constants the total never exceeds 262144, so the size branch never fires |
| Manifest.RefusalChangesStateExactlyWhen | crates/metadata-codec/src/metadata_ext.rs:172-223 | a refusal for conflict, limit or timeout has changed the state if and only if the chunk fills the last free slot at an allowed ratio under an unknown compression |
| Manifest.UnknownCompressionIsStored | crates/metadata-codec/src/metadata_ext.rs:146-223 | a reassembler the Receiver holds stores and refuses the second of two chunks, for every unknown compression and allowed payloads |
| Manifest.ReassemblyAnswers | crates/metadata-codec/src/metadata_ext.rs:172-277 | the answer to every arrival of a run with foreign and repeated chunks, from any state reached |
| Manifest.SeenAllIs | crates/metadata-codec/src/metadata_ext.rs:172-232 | the indices seen are those of the genuine chunks that came in time |
| Manifest.Reassembly | crates/metadata-codec/src/metadata_ext.rs:79-277 | in any order and with any repetition, a genuine chunk in time is answered with the exact manifest once all indices came, and with nothing before |
| LateJoin.ManifestSchedule.ForAccessUnit | crates/edge-core/src/context.rs:398-414 | the sender's cursor and cycle start move as the schedule specification says |
| LateJoin.EmissionsCycle | crates/edge-core/src/context.rs:398-414 | the k-th chunk sent is chunk k mod n, whatever the frame numbers |
| LateJoin.CyclesApart | crates/edge-core/src/context.rs:398-414 | cycles never start closer than the configured number of frames |
| LateJoin.SendsExactlyWhen | crates/edge-core/src/context.rs:398-414 | from what was sent alone: in the middle of a cycle the next chunk, when none has started or enough frames passed since the latest start chunk 0, and otherwise nothing |
| LateJoin.SessionRuntime.ProcessManifestChunk | crates/receiver/src/runtime.rs:166-206 | the locked part of a chunk's handling, with its reassembler object, is the step function |
| LateJoin.SessionRuntime.HandleManifestChunk | crates/receiver/src/runtime.rs:166-238 | the whole handling: completed bytes are validated, and an accepted manifest is adopted and the reassembler dropped |
| LateJoin.LateJoinCompletes | crates/receiver/src/runtime.rs:174-206 | any n consecutive emissions within the timeout, from anywhere in a cycle, give the exact manifest on the n-th and nothing before, n = 1 included |
| LateJoin.LateJoinAdopts | crates/receiver/src/runtime.rs:166-238 | the n-th emission hands out the manifest, and an accepted one is adopted with no reassembler left; a refused one is reported |
| LateJoin.ScheduleReachesReceiver | crates/edge-core/src/context.rs:381-414 | the same end to end from a schedule fed any frame numbers |
| LateJoin.IgnoredLeavesNoTrace | crates/receiver/src/runtime.rs:166-183 | a chunk of another session or of a revision no newer than the adopted one changes neither the end nor any later answer of a run |
| LateJoin.StaysStuck | crates/receiver/src/runtime.rs:174-206 | a timed-out or blocked session refuses every chunk of its revision and never changes, over every run without a chunk of another revision above the adopted one |
| LateJoin.ReadyAgainExactlyWhen | crates/receiver/src/runtime.rs:174-206 | it is ready for its revision again, or past it, if and only if such a chunk has come |
| LateJoin.BlockedExactlyWhen | crates/receiver/src/runtime.rs:185-197 | a session becomes blocked on a new revision if and only if the constructor refuses its first chunk while a reassembler of another revision is held |
| LateJoin.AnotherRevisionRecovers | crates/receiver/src/runtime.rs:174-238 | after one chunk of another revision the next n emissions complete the manifest |
| Base64.DecodeEncode | crates/stream-identity/src/lib.rs:126-152 | unpadded base64url (section 5 of RFC 4648) of any bytes is read back and holds no separator |
| Base64.EncodeDecode | crates/stream-identity/src/lib.rs:150-152 | any text the decoder accepts is the encoding of what it decodes to |
| Base64.EncodedAt | crates/stream-identity/src/lib.rs:126-129 | character i stands in the alphabet of Table 2 of RFC 4648 for the six bits from bit 6 i on |
| StreamIdentity.DecodeEncodeText | crates/stream-identity/src/lib.rs:229-243 | percent-encoding (section 2.1 of RFC 3986) any text is undone by decoding and hides the separator |
| StreamIdentity.EncodedOctetIs | crates/stream-identity/src/lib.rs:14-42 | exactly the unreserved characters of RFC 3986 and the angle brackets stay, everything else becomes a percent sign and two upper-case hexadecimal digits |
| Utf8.Utf8ExactlyWhen | crates/stream-identity/src/lib.rs:233-243 | the octet test accepts a text if and only if it is the encoding (section 3 of RFC 3629) of some Unicode scalar values |
| Utf8.ControlExactlyWhen | crates/stream-identity/src/lib.rs:219-227 | the octet test refuses a text for control characters if and only if one of its characters is of category Cc |
| StreamIdentity.ReadHyphenated | crates/stream-identity/src/lib.rs:245-251 | a hyphenated UUID is read back |
| StreamIdentity.HyphenatedIs | crates/stream-identity/src/lib.rs:245-251 | the UUID text has its hyphens at 8, 13, 18 and 23 and the lower-case digits of byte i at their place |
| StreamIdentity.ParseDecimal | crates/stream-identity/src/lib.rs:253-264 | a printed number is accepted as canonical and read back |
| Text.NoLeadingZero | crates/stream-identity/src/lib.rs:253-264 | only zero is printed with a leading zero |
| StreamIdentity.CollectValues | crates/stream-identity/src/lib.rs:137-147 | the loop over names and segments collects the ten values, or fails exactly on a bad layout |
| StreamIdentity.EncodeThenParse | crates/stream-identity/src/lib.rs:108-185 | whatever is printed and signed is parsed to the same identity |
| StreamIdentity.ParseThenEncode | crates/stream-identity/src/lib.rs:131-185 | whatever is accepted is exactly what printing its identity gives |
| StreamIdentity.ExactInverses | crates/stream-identity/src/lib.rs:108-185 | parsing gives an identity if and only if printing that identity gives the text; `Authenticity` says which text and MAC that is |
| Authenticity.UnsignedIs | crates/stream-identity/src/lib.rs:108-129 | the signed text is, field by field, the literal spelling with its nine tags |
| Authenticity.AcceptedExactlyWhen | crates/stream-identity/src/lib.rs:108-185 | a text is accepted for an identity, and printed for it, if and only if the identity's texts are clean, the text is the literal spelling followed by the first 16 bytes of the MAC of that spelling under the key, and it has at most 256 octets |
| Authenticity.PrintedOrRefused | crates/stream-identity/src/lib.rs:108-136 | an identity is printed as its signed text or refused for the first of its faults, and a text over 256 octets is refused unread |
| Authenticity.AcceptedIsSigned | crates/stream-identity/src/lib.rs:131-185 | the signature of every accepted text decodes to the MAC of everything before it |
| Authenticity.TamperedIsRefused | crates/stream-identity/src/lib.rs:131-155 | the signature of an accepted text is refused on any other text whose MAC begins differently |
| Authenticity.ForgeryIsUnauthentic | crates/stream-identity/src/lib.rs:148-155 | the spelling of any identity with a signature that is not its MAC is answered with the authentication error |
| StreamIdentity.OneSpelling | crates/stream-identity/src/lib.rs:131-185 | no identity has two accepted spellings |
| StreamIdentity.ShortIdentityIsAccepted | crates/stream-identity/src/lib.rs:108-129 | every identity whose three texts are allowed and total at most 24 octets is printed within the size limit and accepted |
| IngestQueue.LongestFitIsSuffix | crates/receiver/src/lib.rs:131-148 | the declarative content is a suffix that fits both limits |
| IngestQueue.LongestFitIsLongest | crates/receiver/src/lib.rs:131-148 | no fitting suffix is longer |
| IngestQueue.Buffer.Push | crates/receiver/src/lib.rs:131-148 | the eviction loop and counters are the step function |
| IngestQueue.QueueIsLongestFit | crates/receiver/src/lib.rs:120-149 | after any pushes the queue is the longest fitting suffix of the admitted frames, its byte count exact, dropped plus held equal to admitted below saturation |
| IngestQueue.ZeroFramesKeepsOne | crates/receiver/src/lib.rs:131-148 | a frame limit of zero still keeps the newest frame |
| Registry.ReceiverRegistry.Accept | crates/receiver/src/lib.rs:186-256 | accepting a connection is the step function: authentication, port, epoch, slot and count tests in order |
| Registry.ReceiverRegistry.Transition | crates/receiver/src/lib.rs:258-285 | a transition is the step function |
| Registry.ReceiverRegistry.Disconnect | crates/receiver/src/lib.rs:287-293 | a disconnect is the step function |
| Registry.ReceiverRegistry.IngestBeforeDecode | crates/receiver/src/lib.rs:295-328 | an ingest is the step function: inspection, monotonicity, ordinal and queue; `Delivery` says what it delivers |
| Registry.RunKeeps | crates/receiver/src/lib.rs:186-328 | the registry invariant and its relation to the history hold after every run |
| Registry.ReadyTrail | crates/receiver/src/lib.rs:258-285 | a trail of legal states ending in DatasetReady is exactly the five stages in order |
| Registry.AdmissionOnEveryRun | crates/receiver/src/lib.rs:186-293 | connected streams have distinct cameras and slots per session, are at most the maximum, sit on base plus slot, hold the highest epoch ever accepted, and are ready only after every stage since their latest accept |
| Registry.FramesOnEveryRun | crates/receiver/src/lib.rs:295-328 | a connection's delivered frames increase in both times, and its queue is their longest fitting suffix |
| AdmissionRuns.AcceptedOnEveryRun | crates/receiver/src/lib.rs:186-256 | on every run a stream is let in if and only if its text is signed, the policy allows its identity on this port, there is room, its session has neither camera nor slot connected, and no later epoch of the camera was ever accepted |
| AdmissionRuns.RefusedOnEveryRun | crates/receiver/src/lib.rs:186-256 | a signed identity is otherwise refused with the first reason that applies, stated from the log of accepted streams |
| AdmissionRuns.IdentityOnEveryRun | crates/receiver/src/lib.rs:186-328 | on every run a stream has the identity and port of its latest accept |
| AdmissionRuns.ConnectedOnEveryRun | crates/receiver/src/lib.rs:186-293 | a stream is known if and only if it was ever accepted, and connected if and only if not disconnected since its latest accept |
| AdmissionRuns.MovesExactlyWhen | crates/receiver/src/lib.rs:258-285 | a known stream moves to quarantine from anywhere and otherwise if and only if to the stage right after its own |
| AdmissionRuns.LetInLeaves | crates/receiver/src/lib.rs:236-256 | on every run, letting a stream in is logged and leaves a fresh connected record with its identity and port, no other stream changes, and a refusal changes nothing |
| AdmissionRuns.MoveLeaves | crates/receiver/src/lib.rs:258-285 | on every run, an answered transition moves the one stream and nothing else, and a refused one changes nothing |
| AdmissionRuns.DisconnectLeaves | crates/receiver/src/lib.rs:287-293 | on every run, a disconnect is answered if and only if the stream was ever let in, and then disconnects that stream and no other |
| Delivery.GenuineOnEveryRun | crates/receiver/src/lib.rs:295-328 | on every run every delivered frame carries its stream's key, the access unit, and the time and messages that this access unit holds |
| Delivery.IngestAnswers | crates/receiver/src/lib.rs:295-328 | on every run an ingest answers the frame with key, pts, ordinal, time, access unit and messages, or the first reason to refuse, from what the stream has delivered |
| Delivery.IngestRefusals | crates/receiver/src/lib.rs:295-328 | a missing pts and an unknown stream are refused, and no refusal changes anything |
| Delivery.EnrichedIsDelivered | crates/receiver/src/lib.rs:295-328 | end to end: what the Edge enriches with a time and additions is delivered with that time and exactly the old messages, the stamp and the additions |
| SessionManifest.ValidateLayout | crates/receiver/src/synchronize.rs:97-125 | the offset loop accepts exactly the layouts the specification calls well laid out |
| SessionManifest.SlicesDisjoint | crates/receiver/src/synchronize.rs:97-125 | slices of one vector in an accepted layout never overlap |
| SessionManifest.SliceInVector | crates/receiver/src/synchronize.rs:97-125 | no accepted slice runs past its vector |
| SessionManifest.SlicesPartition | crates/receiver/src/synchronize.rs:97-125 | every entry of a vector belongs to exactly one slice |
| SessionManifest.ValidateManifest | crates/receiver/src/synchronize.rs:35-95 | the validation loops give the specification's verdict and error |
| SessionManifest.CatalogIsBijective | crates/receiver/src/synchronize.rs:35-95 | the streamed cameras of an accepted manifest are exactly the connected ones |
| SessionManifest.CatalogMatches | crates/receiver/src/synchronize.rs:35-95 | each agrees with its transport on slot, epoch and port, in both directions |
| SessionManifest.OneAnchor | crates/receiver/src/synchronize.rs:35-95 | a count of one anchor means one camera has the role and no second has |
| Judgement.LayoutExactlyWhen | crates/receiver/src/synchronize.rs:97-125 | a layout is accepted if and only if its slices are proper, have names and ids of their own, each starts where the one of its kind before it ends, and the last ones end at the announced lengths |
| Judgement.JudgedExactlyWhen | crates/receiver/src/synchronize.rs:35-125 | a manifest is accepted if and only if it is well identified, its cameras are named, one of them the streamed anchor, the streamed ones are the connected ones on slot, epoch and port, and its slices tile its vectors; and the error is that of the first that fails |
| Catalog.AcceptedManifestPinsCatalog | crates/receiver/src/runtime.rs:210-221 | on every registry run, a manifest accepted against the session's snapshot matches its streamed cameras one-to-one with the connected streams on slot, epoch and port |
| Catalog.AcceptedManifestHasOneAnchor | crates/receiver/src/synchronize.rs:35-95 | an accepted manifest has exactly one anchor, the named and streamed camera |
| Synchronizer.StepSynchronizer.PushSecondary | crates/receiver/src/synchronize.rs:169-188 | queuing a secondary frame is the step function, with its refusals and eviction; `StepQueues` says what a queue holds |
| Synchronizer.StepSynchronizer.New | crates/receiver/src/synchronize.rs:147-167 | a synchronizer starts with an empty queue per streamed camera, or is refused exactly for a zero limit |
| Synchronizer.StepSynchronizer.AnchorStep | crates/receiver/src/synchronize.rs:190-248 | an anchor step is the specification's, with its context errors and the final order by camera id; a missing camera leaves what was already taken |
| Synchronizer.ServeAll | crates/receiver/src/synchronize.rs:203-232 | the camera loop serves the cameras in turn and stops at the first it cannot serve, as specified |
| Synchronizer.TakeFromQueue | crates/receiver/src/synchronize.rs:206-229 | one camera's choice and removal are the specification's |
| Synchronizer.PopUpTo | crates/receiver/src/synchronize.rs:224-229 | the pop loop drops the frames not after the chosen one |
| Synchronizer.SortFrames | crates/receiver/src/synchronize.rs:233-233 | the frames of a step are put in the stable order by camera id |
| Synchronizer.SortSorts | crates/receiver/src/synchronize.rs:233-233 | that order is sorted and has exactly the same frames |
| Synchronizer.TakeFromSorted | crates/receiver/src/synchronize.rs:190-248 | from an ordered queue the nearest frame within the skew is taken and exactly the later frames stay |
| Synchronizer.DiscardedIsFarther | crates/receiver/src/synchronize.rs:190-248 | a frame discarded behind the chosen one is strictly farther from every anchor time from then on |
| Synchronizer.StepTakesNearest | crates/receiver/src/synchronize.rs:190-248 | serving distinct cameras in turn gives each the nearest of its queue and keeps the later frames |
| Synchronizer.SecondaryCamerasDistinct | crates/receiver/src/synchronize.rs:203-205 | the cameras of an accepted manifest are served once each |
| Synchronizer.StepOnEveryRun | crates/receiver/src/synchronize.rs:169-248 | on every run a new step has one choice per secondary camera, the nearest in the queue of that moment and within the skew; later frames stay and every discarded frame is farther from this and every later anchor time |
| StepQueues.QueueIsNewest | crates/receiver/src/synchronize.rs:169-248 | on every run a camera's queue is exactly the newest frames, up to the limit, of what its latest consumption left and every frame accepted since |
| StepQueues.PushOnEveryRun | crates/receiver/src/synchronize.rs:169-188 | on every run a frame is queued if and only if it is of a streamed secondary camera and later in time and number than the last one queued, and no other queue changes |
| StepQueues.PushAnswers | crates/receiver/src/synchronize.rs:169-188 | on every run the exact answer to a pushed frame: the anchor's, one of no streamed camera, one behind its queue, or accepted |
| StepQueues.DeliveriesAreTaken | crates/receiver/src/runtime.rs:116-150 | end to end: the next frame of any merge of a registry run's deliveries, one connection per camera, is accepted by the synchronizer, whatever anchors came in between |
| StepQueues.SecondariesAre | crates/receiver/src/synchronize.rs:147-167 | the cameras served are exactly those streamed by the manifest other than the anchor, and exactly the streamed ones have a queue |
| StepQueues.AnchorOnEveryRun | crates/receiver/src/synchronize.rs:190-269 | on every run an anchor changes nothing unless its context has the manifest's version, session, revision, schema ids and vector lengths and this very frame's number; then each camera in turn loses its first nearest frame and the ones before it if every camera before it had a usable one, and a step is added if and only if all had |
| StepQueues.SentOnEveryRun | crates/receiver/src/synchronize.rs:190-248 | on every run a new step sends the anchor with skew zero and, ordered by camera id, the first nearest frame of each secondary camera's queue of that moment with its signed distance |
| StepQueues.AnchorRefused | crates/receiver/src/synchronize.rs:190-269 | the context error is given if and only if the camera or one of the compared fields does not fit |
| StepQueues.TakeAllMeans | crates/receiver/src/synchronize.rs:203-232 | serving the cameras in turn reaches exactly those before the first with no usable frame, and leaves the rest alone |
| Synchronizer.ChosenTimesIncrease | crates/receiver/src/synchronize.rs:169-248 | when every accepted frame is past its camera's horizon, the times a camera gives to steps strictly increase over whole runs |
| Synchronizer.PastHorizonExactlyWhen | crates/receiver/src/synchronize.rs:169-188 | that holds if and only if no queue ever holds a frame behind its camera's horizon |
| Synchronizer.MonotoneIsPast | crates/receiver/src/synchronize.rs:169-188 | frames pushed in increasing time are past the horizon |
| Synchronizer.NoFrameReuse | crates/receiver/src/synchronize.rs:169-248 | with ordered arrivals no frame is in two steps and each camera's chosen times strictly increase |
| FrameUse.UsedAtMostAccepted | crates/receiver/src/synchronize.rs:169-248 | on every run a frame's uses and its queued copies are at most its accepted pushes |
| FrameUse.NoReuse | crates/receiver/src/synchronize.rs:169-248 | when no frame is accepted twice no frame is in two steps, whatever the order |
| FrameUse.AnyTwoFramesFollow | crates/receiver/src/synchronize.rs:169-248 | both conditions are needed: for every configuration and any two frames of a secondary camera, equal or out of order, a run uses one and then the other |
| Synchronizer.ConnectionFeedsInOrder | crates/receiver/src/lib.rs:295-328 | what the registry delivers for a connection arrives in that order |
| Synchronizer.DeliveriesFeedInOrder | crates/receiver/src/lib.rs:295-328 | however the deliveries of a registry run interleave, one connection per camera, they arrive in that order |
| FeatureRing.SampleRing.Insert | crates/edge-core/src/context.rs:67-82 | insertion is the step function and keeps the ring sorted, shaped and bounded |
| FeatureRing.RingIsSuffix | crates/edge-core/src/context.rs:67-82 | the ring is the newest part of everything accepted, which is sorted |
| FeatureRing.PreviousIs | crates/edge-core/src/context.rs:84-149 | the left neighbour is the latest valid sample at or before the time |
| FeatureRing.NextIs | crates/edge-core/src/context.rs:84-149 | the right neighbour is the earliest valid sample at or after the time |
| FeatureRing.LinearIsTight | crates/edge-core/src/context.rs:84-149 | alpha is within [0,1], the bracket holds the time and fits the gap, and no valid sample is strictly inside it; the values are those of `BetweenNeighbours` |
| FeatureRing.BetweenNeighbours | crates/edge-core/src/context.rs:84-149 | between two neighbours linear gives, within the gap, the point of the straight line at the time with their times, and nearest gives the nearer, the earlier on a tie |
| FeatureRing.AfterSample | crates/edge-core/src/context.rs:84-149 | after a sample hold gives its values within the gap, exact gives them at its own time only, and without a sample after it linear gives nothing |
| FeatureRing.BeforeSamples | crates/edge-core/src/context.rs:84-149 | before all samples only nearest answers, and an unspecified method never does |
| FeatureRing.NearestIsNearest | crates/edge-core/src/context.rs:84-149 | the nearest method minimises the distance over all valid samples |
| FeatureRing.BracketAgrees | crates/edge-core/src/context.rs:84-149 | the ring's neighbours are the full history's if and only if a valid kept sample is at or before the time or nothing valid was evicted |
| FeatureRing.RingAgreesWithHistory | crates/edge-core/src/context.rs:67-149 | then every interpolation method gives on the ring what it gives on the full history |
| FeatureRing.RingAgreesExactlyWhen | crates/edge-core/src/context.rs:67-149 | ring and full history agree for every method and gap if and only if a valid kept sample is at or before the time or nothing valid was evicted |
| FeatureRing.ResampledLength | crates/edge-core/src/context.rs:84-159 | resampled values have the ring's length |
| FeatureRuns.TakenExactlyWhen | crates/edge-core/src/context.rs:67-82 | a ring takes a sample if and only if it has a time, the ring's length and is later than all it has taken |
| FeatureRuns.RingOnEveryRun | crates/edge-core/src/context.rs:170-198 | on every run of pushes a feature's ring holds the newest samples it has taken of those pushed for this feature |
| FeatureRuns.ValueByNumber | crates/edge-core/src/context.rs:207-225 | what the wire numbers 1 to 4 of the interpolation mean for the value, both when there is one and when there is none; any other number gives none |
| Layout.CompileVector | crates/adapter-client/src/embodiment.rs:223-268 | the layout loop is the specification's placement, with its errors and 32-bit limits |
| Layout.GatherFiled | crates/adapter-client/src/embodiment.rs:118-139 | what is gathered is exactly what the adapters describe for the listed devices, each feature under its device and its own name |
| Layout.GathersExactlyWhen | crates/adapter-client/src/embodiment.rs:118-139 | gathering succeeds if and only if every listed device has a known adapter that describes it, and otherwise names what the first one misses |
| Layout.CompiledIsPlaced | crates/adapter-client/src/embodiment.rs:113-185 | every compiled layout is back to back per vector, with distinct names and exact vector lengths |
| Compilation.CompilesExactlyWhen | crates/adapter-client/src/embodiment.rs:113-268 | a layout compiles if and only if every name is known and asked for once, each vector fits 32 bits and the schema ids can be made; and then its features are those asked for, in order, as their devices describe them, back to back, with the schema ids of the observation and the action part |
| Compilation.ShapeLengthIs | crates/adapter-client/src/embodiment.rs:223-268 | a length is the product of the shape, refused if and only if a leading part of it passes 32 bits |
| Layout.ReceiverAcceptsCompiled | crates/receiver/src/synchronize.rs:97-125 | the Receiver accepts a compiled layout if and only if no feature is empty and the feature ids are distinct and non-zero |
| Layout.SharedIdIsRefused | crates/adapter-client/src/embodiment.rs:113-185 | two adapters that give their devices' features one id compile together and are refused by the Receiver, for any devices, names and id |
| Context.WithBitOnly | crates/edge-core/src/context.rs:200-307 | setting the bit of one feature in the lsb0 bitmap changes no other feature's bit |
| Context.WriteScatters | crates/edge-core/src/context.rs:200-307 | writing one feature's slice leaves every other feature's slice alone |
| Context.NewRingsOk | crates/edge-core/src/context.rs:170-191 | the assembler starts with one fitting ring per feature |
| Context.PushKeepsRings | crates/edge-core/src/context.rs:193-198 | pushing a sample keeps every ring fitting |
| Context.Assemble | crates/edge-core/src/context.rs:207-266 | the loop stays in bounds and fills vectors, bitmap, missing list, reason and device records (exactly the devices with a value or a missing one; validity, earliest sample before, latest after, widest gap, last alpha) as specified for any rings and time |
| Context.AssembleWithin | crates/edge-core/src/context.rs:200-307 | a context over the size budget is refused, any other is returned |
| Context.ProjectionUndoesAssembly | crates/web-relay/src/lib.rs:185-228 | projecting an assembled context gives each feature its id, name, kind and requirement with its resampled values and valid, or zeros and not valid |
| Context.ProjectsExactlyWhen | crates/web-relay/src/lib.rs:185-228 | any vectors project if and only if every slice is of a known kind and inside its vector, one named feature per slice in order, and otherwise the first slice that is not decides the error |
| Context.ReasonEmptyWhenValid | crates/edge-core/src/context.rs:200-307 | the reason is empty if and only if every required feature is valid |
| Context.CompiledFits | crates/adapter-client/src/embodiment.rs:113-185 | a compiled embodiment with usable features meets what the assembler needs |
| Context.FeaturesSurvive | crates/web-relay/src/lib.rs:185-228 | what is assembled from a usable compiled layout passes the Receiver and is projected back to every feature's values |
| Context.FeaturePath | crates/web-relay/src/lib.rs:185-228 | the whole path from descriptors through any run of samples to named features yields them if and only if the embodiment compiles, is usable and has rings, and then every feature survives |
| SseHandover.PushHistory | crates/web-relay/src/linux.rs:388-400 | the push and trim loop keep the newest events of a stream |
| SseHandover.RunConsistent | crates/web-relay/src/linux.rs:388-400 | on every interleaving, histories, broadcasts and the client's snapshot are determined by how far the producer got |
| SseHandover.HandoverIsContiguous | crates/web-relay/src/linux.rs:685-714 | a client gets a contiguous run of the stream's events from the oldest in its snapshot on, each once and in order |
| SseHandover.LiveFrom | crates/web-relay/src/linux.rs:685-714 | a client is live from its first snapshot after its first subscription on, with the history of that moment and every broadcast since the subscription |
| SseHandover.EverythingIsDelivered | crates/web-relay/src/linux.rs:388-400 | once the producer has gone on for as many rounds as there are events, a live client has every event of its stream from the oldest in its snapshot on |
| ClockMapper.FitPoints | crates/timebase/src/clock_mapper.rs:126-172 | the summing loops, the residuals' included, give the specification's model |
| ClockMapper.ClockWindow.ObserveOne | crates/timebase/src/clock_mapper.rs:69-93 | an observation is the step function: reset, outlier or push |
| ClockMapper.ClockWindow.PushOne | crates/timebase/src/clock_mapper.rs:109-116 | a push evicts, appends and refits as specified |
| ClockMapper.ClockWindow.ResetWindow | crates/timebase/src/clock_mapper.rs:118-123 | a reset clears all but the revision, which saturates |
| ClockMapper.FitIsOptimal | crates/timebase/src/clock_mapper.rs:126-172 | no affine map has a smaller sum of squared residuals over the window |
| ClockMapper.FitExists | crates/timebase/src/clock_mapper.rs:126-172 | with increasing sources a model exists if and only if there are two points |
| ClockMapper.SlopeNonNegative | crates/timebase/src/clock_mapper.rs:126-172 | with non-decreasing edge times the slope is not negative |
| ClockMapper.WindowOnEveryRun | crates/timebase/src/clock_mapper.rs:69-172 | on every run sources strictly increase, the window is bounded, a model exists exactly from two points, and it is optimal |
| ClockMapper.EdgesOnEveryRun | crates/timebase/src/clock_mapper.rs:69-123 | non-decreasing edge times stay so in the window |
| ClockMapper.MappingPreservesOrder | crates/timebase/src/clock_mapper.rs:100-107 | on such runs mapping preserves the order of source times |
| ClockRuns.WindowIsNewest | crates/timebase/src/clock_mapper.rs:69-123 | on every run the window is the newest points taken since the latest reset, the revision counts the resets, and the source time to beat is the latest observed, refused or not |
| ClockRuns.AnsweredOnEveryRun | crates/timebase/src/clock_mapper.rs:69-93 | on every run an observation resets if and only if its source does not advance or the model misses it by more than the jump limit, and is refused if and only if, short of that, four or more points miss it by more than the residual limit |
| ClockRuns.ModelOnEveryRun | crates/timebase/src/clock_mapper.rs:126-172 | the model carries the mean square, the size and the revision of the window |
| ClockRuns.MapsExactlyWhen | crates/timebase/src/clock_mapper.rs:100-107 | a time is mapped if and only if the window has two points and the prediction is in range, and then to the nearest nanosecond |
| Control.ControlGateway.ExpireLeases | crates/edge-core/src/control.rs:210-215 | expiry removes exactly the leases at or past their time and counts them |
| Control.ControlGateway.Acquire | crates/edge-core/src/control.rs:116-147 | acquiring is the step function: expiry, request tests and conflict test in order |
| Control.ControlGateway.Release | crates/edge-core/src/control.rs:149-151 | a release removes the lease and says whether it was there |
| Control.ControlGateway.ValidateCommand | crates/edge-core/src/control.rs:153-203 | a command is the step function: lease, duplicate, device, length and range tests, history and stored action |
| Control.RunKeeps | crates/edge-core/src/control.rs:116-215 | the gateway's invariant and its relation to the log hold after every run |
| Control.ControlIsSafe | crates/edge-core/src/control.rs:116-215 | live leases share no device; every executed command was covered by a granted, unreleased, unexpired lease owning its device; stored actions obey their policy; no id is executed twice within the first history-plus-one commands |
| ControlRuns.AcquireOnEveryRun | crates/edge-core/src/control.rs:116-147 | on every run a lease is granted if and only if the request is in order and no unexpired lease has one of its devices; it is then the client's, on exactly those devices, and ends at now plus the time asked for, at most the largest 64-bit number |
| ControlRuns.TableOnEveryRun | crates/edge-core/src/control.rs:116-215 | on every run in which time does not go back and requested lease ids are new, the lease table is exactly the leases granted, not released since and not expired at the latest time |
| ControlRuns.SubmitOnEveryRun | crates/edge-core/src/control.rs:153-203 | on every run a command is executed if and only if its id is not remembered, its lease is live and owns its device, and its schema, mode, length and values are what the device's policy allows |
| ControlRuns.ExecutedOnEveryRun | crates/edge-core/src/control.rs:153-208 | on every run each executed command has its policy's schema and mode and values in bounds, and a device's effective action is its latest command |
| Control.HistoryOnEveryRun | crates/edge-core/src/control.rs:186-191 | on every run the history is the latest id and the largest ones executed before it, and the first history-plus-one ids are distinct |
| Control.AcceptedAgainExactlyWhen | crates/edge-core/src/control.rs:153-203 | on every run an executed id is accepted again if and only if the command is otherwise fit, the id is not the latest, and history-minus-one distinct larger ids were executed before the latest |
| Control.RepeatIsExecuted | crates/edge-core/src/control.rs:153-203 | for every history size a run whose first history-plus-one ids are distinct and whose next repeats the first |
| Episodes.SessionManager.New | crates/receiver/src/session.rs:51-70 | a manager starts empty, or is refused exactly for a zero revision or capacity |
| Episodes.SessionManager.IngestOne | crates/receiver/src/session.rs:89-170 | ingesting is the step function: step tests, capacity, post-roll count and pre-roll eviction |
| Episodes.SessionManager.BeginEpisode | crates/receiver/src/session.rs:112-126 | beginning moves the pre-roll into the episode |
| Episodes.SessionManager.EndEpisode | crates/receiver/src/session.rs:128-140 | ending starts the post-roll or finalizes |
| Episodes.SessionManager.TakeFinalized | crates/receiver/src/session.rs:142-152 | only a finalized or invalid episode is handed out |
| Episodes.SessionManager.UpdateSchemaRevision | crates/receiver/src/session.rs:72-87 | the schema changes only without an episode, and clears the pre-roll |
| Episodes.RunKeeps | crates/receiver/src/session.rs:72-170 | the manager's relation to all admitted steps holds after every run |
| Episodes.EpisodesAreSlices | crates/receiver/src/session.rs:72-170 | every episode, taken or active, is a contiguous run of the admitted steps, increasing in time, of its session and frozen revision, and no two share a position |
| Episodes.PreRollIsNewest | crates/receiver/src/session.rs:89-126 | on every run the pre-roll is exactly the newest steps, up to its capacity, admitted since the latest take or schema update, and every episode begins with exactly those of its beginning |
| EpisodePhases.PhaseOnEveryRun | crates/receiver/src/session.rs:72-170 | on every run the manager's state follows from the answers: active from a begin to the take after it, invalid once overrun, recording until ended, final once its post-roll is recorded, at the revision of the latest update |
| EpisodePhases.AnswersOnEveryRun | crates/receiver/src/session.rs:72-170 | on every run every call is answered as that phase and the admitted steps demand, with the exact error otherwise |
| EpisodePhases.OpenEpisodeOnEveryRun | crates/receiver/src/session.rs:89-126 | the open episode is exactly the steps admitted from its mark on |
| Episodes.AdmittedExactlyWhen | crates/receiver/src/session.rs:154-170 | a step of the session and revision is admitted, capacity permitting, if and only if it is later than the last admitted one or nothing was admitted since the last take or schema update |
| Episodes.NeverBackExactlyWhen | crates/receiver/src/session.rs:72-170 | the admitted steps increase throughout if and only if the first after each take and schema update is later than the one before it |
| Episodes.IncreasingSharesNothing | crates/receiver/src/session.rs:72-170 | then every step of a later episode is later than every step of an earlier one, so none is in two |
| Episodes.AnyTwoEpisodesFollow | crates/receiver/src/session.rs:142-170 | otherwise not: any two steps, equal or out of order, can be two successive episodes |
| Episodes.TakenEpisodesAreComplete | crates/receiver/src/session.rs:128-152 | a finalized episode holds the whole post-roll it was ended with, and an invalid one is exactly full |
| Episodes.BoundedExactlyWhen | crates/receiver/src/session.rs:51-110 | episodes stay within capacity on every run if and only if the pre-roll capacity is at most the episode capacity |
| Episodes.LargerPreRollOverflows | crates/receiver/src/session.rs:89-126 | a run that exceeds the capacity for every larger pre-roll |
| CameraMap.IdentityIsInjective | crates/camera-discovery/src/lib.rs:60-75 | two identity strings are equal if and only if the seven fields agree, absent read as empty, whatever characters they hold |
| CameraMap.SlotMap.AllocateOrReuse | crates/camera-discovery/src/lib.rs:338-367 | the search loops and updates are the step function |
| CameraMap.SlotMap.FindSlot | crates/camera-discovery/src/lib.rs:355-358 | the occupied set and the scan find the specification's free slot |
| CameraMap.SlotMap.MarkMissing | crates/camera-discovery/src/lib.rs:369-375 | exactly the cameras not active become tombstones |
| CameraMap.SlotMap.ReclaimTombstone | crates/camera-discovery/src/lib.rs:377-383 | the retain loop is the step function and reports whether anything went |
| CameraMap.ReclaimKeeps | crates/camera-discovery/src/lib.rs:377-383 | a reclaim keeps every entry except the tombstone of that id |
| CameraMap.NewCameraGetsLeastSlot | crates/camera-discovery/src/lib.rs:338-367 | an unknown camera gets the least slot no entry holds and device start plus slot, and is refused only when every slot is held |
| CameraMap.ExhaustedExactlyWhenFull | crates/camera-discovery/src/lib.rs:355-358 | within one pool it is refused if and only if as many cameras as slots are mapped, tombstones included |
| CameraMap.UniqueOnEveryRun | crates/camera-discovery/src/lib.rs:338-383 | on every run ids and slots stay distinct |
| CameraMap.SlotIsSticky | crates/camera-discovery/src/lib.rs:338-383 | a camera keeps identity, slot and device through every run until it is reclaimed as a tombstone |
| CameraMap.StandingOnEveryRun | crates/camera-discovery/src/lib.rs:338-383 | on every run a camera is active, a tombstone or unknown exactly as the latest events about it say |
| CameraMap.ReplugFindsItsSlot | crates/camera-discovery/src/lib.rs:338-367 | plugged in again it is answered with its old slot and device, while another identity under its id is refused without change |
| CameraMap.PoolOnEveryRun | crates/camera-discovery/src/lib.rs:338-383 | over one pool slots are in range, devices are distinct even where the number wraps, and there are at most as many cameras as slots |
| FixedGrid.NearestIndex | python/dataset_builder/app/transaction.py:67-67 | the minimum search finds the first closest frame |
| FixedGrid.RoundsToNearest | python/dataset_builder/app/transaction.py:61-61 | the period is rounded to the nearest integer, to the even one on a tie |
| FixedGrid.FixedGridNearest | python/dataset_builder/app/transaction.py:57-73 | the loop ends for every period, zero included; it succeeds if and only if every grid point up to the last frame has its own nearest frame within the tolerance, and then returns these |
| FixedGrid.SelectionIsOrdered | python/dataset_builder/app/transaction.py:57-73 | on ordered frames the selection starts at 0, strictly increases and is within tolerance of first plus k periods |
| FixedGrid.NearestAscends | python/dataset_builder/app/transaction.py:67-67 | a later grid point never has an earlier nearest frame |
| FixedGrid.FitsExactlyWhenCovered | python/dataset_builder/app/transaction.py:68-69 | with a tolerance under half a period the resampling succeeds if and only if every grid point has some frame within tolerance |
| FixedGrid.RegularFramesAreKept | python/dataset_builder/app/transaction.py:57-73 | frames already on the grid are all kept in order |

## Left out

- GStreamer pipelines, SRT, V4L2, udev, HLS, HTTP routes, gRPC services, TLS, files, metrics and environment parsing: foreign calls with no logic of their own.
- CRC32C, SHA-256, BLAKE3, HMAC, zstd and canonical JSON: parameters with the laws used; nothing is said about collisions or forgery.
- General protobuf decoding: messages are datatypes; only the nine-byte timestamp message is modelled as bytes.
- Rounding of `f32` and `f64`: the clock mapper, interpolation and frame rates are over the reals.
- ClockMapper.FitPoints: keeps the mean square residual instead of its square root, which nothing reads back.
- UUID spellings other than the hyphenated one: refused at once here, and in the source one line later with the same error, because they do not print back.
- Context.Assemble: the encoded length of a context is a parameter, and of a device record the constant quality codes and the clock fields, which are never set, are left out.
- LateJoin.SessionRuntime.HandleManifestChunk: the verdict on the completed bytes is a parameter (`Catalog` says what it means), the registry's transitions after adoption are left out, and one chunk is handled at a time although validation runs outside the lock.
- Layout.CompileVector: schema version, endpoint and identifier tests of the configuration come before it and are left out.
- Control.ControlGateway.Acquire: the policy tests of the gateway's constructor are the predicate `ValidConfig`.
- Synchronizer.StepSynchronizer.AnchorStep: of the step sent, only its frames and their skews are modelled; the fields copied from manifest, context and stored frame (vectors, validity, URI, image) are left out.
- Episodes.SessionManager.BeginEpisode: the random episode id and the stored, never read, schema fingerprint are left out.
- CameraMap.SlotMap.AllocateOrReuse: saving, loading and the checksum of the map file, and grouping of device endpoints into cameras, are left out.
- SseHandover.HandoverIsContiguous: a lagging broadcast receiver and a session reset are outside the property, as in the source, which counts a lag and goes on.
- `AnchorAuHoldQueue` (holds access units until their context is ready, by PTS), `LatestQueue` (keeps the newest items of a bounded channel) and `AdapterRegistry` (the adapters' descriptors, frozen while an episode is active): bounded containers beside the paths modelled here, which none of the modelled operations calls.
- `select_session` (the relay's newest connected session), `validate_cadence` (the export's interval statistics), disk readiness and dataset export: a maximum over a list, floating-point statistics and file effects.
