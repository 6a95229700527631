# Verified model of the DSM offline-bearer anchor

A Dafny 4.11 model of the anchor core, its firmware serve loop and its host codec, with
proofs. `dafny verify dfyconfig.toml` checks all of it.

What the system promises is one rule: certify exactly one root advance from the current root,
then move the chip's down-counter. The model follows that promise from the bytes up.

- `Util`, `Bits`, `Hashing`: integers, byte strings, domain tags. The two hash functions are
  arbitrary functions (`Hashes`), and every result holds for all of them. A binding result
  says "equal, or these two strings, computed from the inputs, collide".
- `RootAdvance`: transitions, certificates, releases, the canonical encoder and its decoder, and
  the derivations of the digest D, witness input X, key seed K, key handle and message M.
- `Wots`: the one-time signature, as functions and as the source's loops.
- `Layout`: the byte layout of every hashed string.
- `Accept`: the receiver's predicate.
- `DeviceModel`: the appliance as a value, with one step function per operation. Each call takes
  an `Env`: which chip calls fail, what MAC-And-Destroy answers for each slot and input, whether a counter update reports
  failure (having moved the counter or not), how far the counter drifts out of band during the
  call, and after which durable write power is lost. A durable write is one assignment to the
  active state or one counter move, which is finer than the three phases of a commit.
- `Anchor` (file `Appliance.dfy`): the appliance as an object over a chip object, method by
  method as in the source, each proved to do what its step function says.
- `Protocol`, `LinearHistory`, `Recovery`: whole runs, in any order and any environment, with
  outside counter moves and invalidity flags between calls.
- `Settling`: which appliances can still become Ready at the live index.
  `Liveness`: what an undisturbed appliance achieves. `Contiguity`: when exports leave gaps.
  `Completeness`: what becomes of an interrupted commit, up to the receiver.
- `Answers`: what each call answers, exactly, in every environment.
- `Receivers`: one appliance with any number of receivers.
- `Proto`, `Service`, `Responses`: wire conversions, the request dispatcher, and what a response
  tells the host.
- `Frames`, `ServeLoop`, `HostCodec`: the byte transport of the firmware, how it drives the
  appliance, and the byte transport of the host tool.

## Results that qualify the documentation

- The exported indices need not be 1, 2, 3, ...: `finalize` does not ask whether `emit` ran. They
  are if and only if every `finalize` that succeeds before a later export finds its release
  emitted (`Contiguity.ExportsContiguous`); `Contiguity.UnemittedFinalizeSkips` is a run whose only
  export has index 2 and starts from the successor of a release nobody received.
- A commit interrupted between erasing the key and storing its candidate never completes: recovery
  reports the successor if and only if the candidate was stored (`Completeness.OutcomeExactly`), and
  after a lost key only `cancel` helps (`Completeness.LostKeyNeverCompletes`).
- An appliance can get stuck in three ways, and in no other (`Settling.SettlesExactly`): by power loss
  between the two writes of `prepare` on an appliance without a record (`Recovery.TornPrepareReached`;
  `Recovery.TearsExactly` says which calls tear); when the counter has passed its index
  (`Recovery.LockoutIsAbsorbing`); and when outside moves have taken it past a stored candidate
  (`Settling.OvertakenIsLocked`, `Settling.OvertakenReached`).
- Recovery may answer that a prepared transfer can complete although the counter is exhausted and
  every commit fails: `Recovery.PreparedVerdict` says exactly when, and
  `Liveness.ExhaustedPrepareMisjudged` reaches it once all `H0` moves are spent.
- The serve loop can drop a frame within its cap: every cut of the stream is safe for frames of
  at most `MAX_RX_FRAME - 63` bytes, and for no larger size (`Frames.DeliversExactly`,
  `Frames.LongerFramesCanBeLost`).
- For any cap on the variable fields the encoding is injective if and only if the cap is below 2^32
  bytes (`RootAdvance.InjectiveExactly`); `push_var` asserts as much in debug builds only.
- Acceptance does not say whose key signed: a release under the key of any seed is accepted while
  the counter stands at its index (`Receivers.AnyKeyAccepted`). What the appliance's own keys add is
  said by `Receivers.AcceptedUnderExportKey` and `Receivers.AcceptancesAgree`.
- The host parser takes padded varints (`HostCodec.ReadIsMinimal`), and does not notice every cut: a
  message cut inside its last field still parses if and only if the cut lies behind the header of
  a byte field (`HostCodec.CutNoticedExactly`).
- `accept.rs` speaks of sixteen checks and the repository's README of seventeen; the code has
  fifteen errors, numbered 1 to 16 without 12, and the model follows the code.

## Model

| member | source | states |
|---|---|---|
| Util.CtEq32 | anchor-core/src/util.rs:20-26 | the accumulated xor/or difference is zero exactly when the arrays are equal |
| Util.ByteBuf.PushVar | anchor-core/src/util.rs:12-16 | appends the field behind its length cast to 32 bits |
| Util.IntegersRoundTrip | anchor-core/src/util.rs:31-43 | the little-endian integer encoders lose nothing |
| Util.LeByte | anchor-core/src/util.rs:31-43 | byte i of an encoded integer has weight 256^i: the least significant byte comes first |
| Util.FlattenInjective | anchor-core/src/hash.rs:4-18 | fixed-width fields are determined by their concatenation, so hash inputs need no length prefixes |
| Hashing.DomainsSeparate | anchor-core/src/domain.rs:7-23 | no preimage under one tag is a preimage under another, whatever the fields |
| RootAdvance.EncodeTransition | anchor-core/src/root_advance.rs:49-66 | the field-by-field encoder produces the encoding the decoder theorems are about |
| RootAdvance.TransitionDecodable | anchor-core/src/root_advance.rs:47-66 | with variable fields under 2^32 bytes the decoder returns (t, rest) exactly on enc(t) followed by rest |
| RootAdvance.TransitionPrefixFree | anchor-core/src/util.rs:5-16 | no encoding is a prefix of another transition's: the encoding is injective and prefix-free |
| RootAdvance.LongFieldsAlias | anchor-core/src/util.rs:12-16 | two different transitions share an encoding, with fields of 2^32 bytes, where the prefix wraps, and none longer |
| RootAdvance.InjectiveExactly | anchor-core/src/util.rs:5-16 | for any cap on the variable fields the encoding is injective within the cap if and only if the cap is below 2^32 |
| RootAdvance.DigestBinds | anchor-core/src/root_advance.rs:69-71 | equal digests D: equal transitions, or the two named preimages collide |
| RootAdvance.PkHashBinds | anchor-core/src/root_advance.rs:125-127 | equal handles: equal public keys, or the two named preimages collide |
| RootAdvance.MessageBinds | anchor-core/src/root_advance.rs:131-158 | equal messages M: same transition, anchor, slot and challenge, or a named collision |
| RootAdvance.MessageCovers | anchor-core/src/root_advance.rs:131-158 | equal messages M: same roots, counters, D, X, key handle, public key, recipient, object, policy, anchor, slot and challenge, or a named collision |
| RootAdvance.InputCovers | anchor-core/src/root_advance.rs:74-98 | equal witness inputs X: same roots, counters, D, recipient, object, policy, anchor, slot and challenge, or a named collision |
| RootAdvance.SeedCovers | anchor-core/src/root_advance.rs:101-123 | equal seeds K: same chip answer, X, roots, counters, anchor, slot and policy, or one named KDF collision |
| RootAdvance.SeedFixesMessage | anchor-core/src/root_advance.rs:74-158 | two derivations of one seed K sign one message, whatever the chip answered, or a named collision |
| Layout.TransitionLayout | anchor-core/src/root_advance.rs:47-66 | the offset and width of every field and length prefix in enc(Δ) |
| Layout.WitnessInputLayout | anchor-core/src/root_advance.rs:73-98 | X hashes its tag and 274 bytes, with every field at its offset |
| Layout.WitnessKeyLayout | anchor-core/src/root_advance.rs:100-123 | K is keyed by the chip's answer and hashes its tag and 178 bytes, with every field at its offset |
| Layout.CertMessageLayout | anchor-core/src/root_advance.rs:130-158 | M hashes its tag and 338 bytes, with every field at its offset |
| Layout.SingleFieldLayouts | anchor-core/src/sig.rs:40-81 | the strings hashed for D, the key handle, a chain step, the key compression, and the secret of chain i, byte for byte |
| Wots.ChainLoop | anchor-core/src/sig.rs:42-47 | the loop applies the chain step the given number of times |
| Wots.DigitsLoop | anchor-core/src/sig.rs:50-67 | the digit loop yields the 64 nibbles and the three checksum digits |
| Wots.DigitsSpell | anchor-core/src/sig.rs:52-56 | digits 2i and 2i+1 spell byte i of the digest, high nibble first |
| Wots.DigitSum | anchor-core/src/sig.rs:36-66 | message digits plus checksum value are 960 for every digest: shifts and masks lose nothing |
| Wots.DigitsAntichain | anchor-core/src/sig.rs:18-23 | of two different digests each has a digit strictly below the other's |
| Wots.CompressLoop | anchor-core/src/sig.rs:75-81 | hashes the concatenated chain tops |
| Wots.ChainSecretsDiffer | anchor-core/src/sig.rs:69-72 | two chains start from one secret only if the two named derivations collide |
| Wots.Keygen | anchor-core/src/sig.rs:88-94 | the secret key is the seed, the public key the compression of the 67 tops |
| Wots.SignLoop | anchor-core/src/sig.rs:97-107 | the signature is every chain advanced to its digit |
| Wots.VerifyLoop | anchor-core/src/sig.rs:110-125 | true exactly for well-sized inputs whose recomputed tops compress to the key |
| Wots.SignVerifies | anchor-core/src/sig.rs:88-125 | every honest signature verifies |
| Wots.ForgeryReduction | anchor-core/src/sig.rs:18-23 | a signature verifying on another digest chains forward onto an honest block, or exhibits a chain or compression collision |
| Wots.SignatureUnique | anchor-core/src/sig.rs:110-125 | a different signature verifying on the same digest exhibits a collision |
| Accept.FirstFailureDecides | anchor-core/src/accept.rs:64-224 | accepted exactly when every check holds, else rejected with the lowest-numbered failing check |
| Accept.AcceptedIsCanonical | anchor-core/src/accept.rs:101-224 | acceptance pins every certificate field: it is the one certificate for the transition, the pinned anchor and the expected challenge |
| Accept.Unforgeable | anchor-core/src/accept.rs:101-224 | an accepted release under an honest key is the honest release, transition and certificate, or breaks the scheme in a named way |
| Anchor.Tropic.Update | anchor-core/src/tropic.rs:34-36 | moves the counter down by one, refused at zero; a reported failure may or may not have moved it |
| Anchor.Appliance.constructor | anchor-core/src/appliance.rs:145-156 | a Ready appliance at index 0 with no record |
| Anchor.Appliance.LiveIndex | anchor-core/src/appliance.rs:161-165 | H0 - H, with the chip error or a mismatch when H exceeds H0 |
| Anchor.Appliance.Prepare | anchor-core/src/appliance.rs:170-219 | new state and reply are those of the step, at every power cut; the successor sum cannot overflow |
| Anchor.Appliance.Commit | anchor-core/src/appliance.rs:229-315 | new state, counter and reply are those of the step, at every power cut and chip answer |
| Anchor.Appliance.Emit | anchor-core/src/appliance.rs:319-324 | the stored release exactly when its counter move is recorded |
| Anchor.Appliance.Finalize | anchor-core/src/appliance.rs:327-346 | installs the successor root exactly at the live index, else changes nothing |
| Anchor.Appliance.Cancel | anchor-core/src/appliance.rs:349-359 | erases the key and drops the prepared record, write by write |
| Anchor.Appliance.Recover | anchor-core/src/appliance.rs:365-454 | new state, counter and outcome are those of the step, on all exits and power cuts |
| DeviceModel.CandidateGenuine | anchor-core/src/appliance.rs:254-287 | a sound prepared record commits to a release with the canonical certificate, a verifying signature and true counter claims |
| Protocol.StepCoherent | anchor-core/src/appliance.rs:144-455 | every call, at every power cut, keeps the reachable-state invariant |
| Protocol.StepEffect | anchor-core/src/appliance.rs:327-346 | only finalize changes the root or base index, and nothing replaces a pending release |
| LinearHistory.ExportsAreLinear | anchor-core/src/appliance.rs:170-454 | in every run the releases are linked by indices 1, 2, 3, ... and roots; every export is the release of its index; one index, one release |
| LinearHistory.HistoryOnlyGrows | anchor-core/src/appliance.rs:361-364 | later calls only append to the history of releases |
| LinearHistory.ExportsAreCounted | anchor-core/src/appliance.rs:227-228 | nothing is exported before its counter move |
| LinearHistory.ExportIsGenuine | anchor-core/src/appliance.rs:254-287 | every export of every run is a genuine release of the appliance |
| LinearHistory.IndexNeverAhead | anchor-core/src/appliance.rs:412-443 | in every reachable state u is at most H0 - H, a candidate at most one ahead, and recovery never fails closed |
| LinearHistory.KeysSignOnce | anchor-core/src/appliance.rs:192-254 | in every run no witness key signs two messages, re-signing after a crash included, or two derivations collide |
| LinearHistory.SignsAgainAfterCrash | anchor-core/src/appliance.rs:254-297 | a commit cut before its first write has signed; the next one signs the same message under the same key |
| LinearHistory.DerivesAgainAfterCrash | anchor-core/src/appliance.rs:192-207 | a preparation cut before its first write counts as a derivation, beside the next one |
| Contiguity.ContiguousUnlessSkipped | anchor-core/src/appliance.rs:317-346 | the exported indices are 1, 2, 3, ... if and only if nothing is exported beyond an index finalized unexported |
| Contiguity.ExportsContiguous | anchor-core/src/appliance.rs:317-346 | in terms of the calls: the exported indices of a run are 1, 2, 3, ... if and only if every finalize that succeeds before a later export finds its release emitted |
| Contiguity.UnemittedFinalizeSkips | anchor-core/src/appliance.rs:327-346 | a run whose only export has index 2 and starts from the first transfer's successor root |
| Recovery.LockoutIsAbsorbing | anchor-core/src/appliance.rs:187-252 | once the counter has passed the index with no candidate stored, nothing is ever prepared, signed, finalized or exported again, and root and index stay |
| Recovery.ReadyBehindIsStranded | anchor-core/src/appliance.rs:437-440 | a reachable Ready appliance behind its counter is locked out in that sense |
| Recovery.MovesMatchReleases | anchor-core/src/appliance.rs:300-313 | without outside moves the counter has moved exactly once per release, up to one unrecorded candidate |
| Recovery.InFlightStep | anchor-core/src/appliance.rs:175-177 | only cancel and finalize end a transfer; no call replaces it |
| Recovery.CounterMovesOnce | anchor-core/src/appliance.rs:289-416 | from a prepared transfer, under any re-runs and cuts, the index stays in {n, n+1}; a reported successor is at n+1, is the transfer's, and finalize installs it |
| Recovery.RecoverIdempotent | anchor-core/src/appliance.rs:361-454 | a second fault-free recovery repeats the outcome and changes nothing, from any state |
| Recovery.CancelUndoesPrepare | anchor-core/src/appliance.rs:348-359 | cancelling a preparation restores the appliance exactly |
| Recovery.CommitsExactly | anchor-core/src/appliance.rs:229-252 | a fault-free commit succeeds exactly under its guards, moves the counter by one and leaves a release of that transition |
| Recovery.ReemitIsActionable | anchor-core/src/appliance.rs:117-123 | after a reported successor, emit returns the stored release and finalize installs the reported root |
| Recovery.ReadyVerdict | anchor-core/src/appliance.rs:365-452 | recovery accepts a Ready appliance exactly when its boundary is valid and a fitting transfer can be prepared and committed |
| Recovery.ExhaustedVerdict | anchor-core/src/appliance.rs:365-452 | it reports exhaustion exactly when, within a valid boundary, a fitting transfer prepares but meets an exhausted counter |
| Recovery.PreparedVerdict | anchor-core/src/appliance.rs:365-435 | a prepared transfer is declared completable exactly within a valid boundary with its key at the live index, and can then be committed if and only if the counter is not exhausted |
| Recovery.KeyLostVerdict | anchor-core/src/appliance.rs:365-435 | it asks for resolution exactly within a valid boundary when commit finds the key gone and cancel settles the appliance |
| Recovery.CommittedVerdict | anchor-core/src/appliance.rs:365-416 | it reports a successor exactly when, within a valid boundary, finalize then installs that root |
| Answers.RecoverAnswers | anchor-core/src/appliance.rs:365-454 | for every state and environment: the exact condition of each answer of recovery, and of being interrupted |
| Answers.RecoveryNeedsBoundary | anchor-core/src/appliance.rs:366-372 | outside a valid boundary or without a counter read recovery downgrades and touches nothing, in every state |
| Answers.RecoveryWritesOnlyCandidates | anchor-core/src/appliance.rs:361-416 | recovery writes nothing but the flag and the index of a stored candidate |
| Answers.CommitAnswers | anchor-core/src/appliance.rs:229-315 | for every state and environment: the exact condition of each reply of commit |
| Answers.OneWitnessCall | anchor-core/src/appliance.rs:167-196 | a preparation derives a key if and only if it asked the chip once, for that transfer's input at its slot, and was answered; what is refused earlier asks nothing |
| Recovery.TearsExactly | anchor-core/src/appliance.rs:207-217 | the state of a torn preparation is entered exactly by a prepare that passed its checks on an appliance without a record and was cut after its first write |
| Recovery.TornPrepareReached | anchor-core/src/appliance.rs:145-217 | the first preparation of a new appliance, so cut, reaches it, and no calls after it settle or export |
| Settling.SettlesExactly | anchor-core/src/appliance.rs:327-454 | a coherent appliance can become Ready at the live index if and only if its preparation is not torn and the counter has passed neither its index nor its stored candidate |
| Settling.OvertakenIsLocked | anchor-core/src/appliance.rs:376-416 | once the counter has passed the stored candidate, nothing is ever prepared, signed or finalized again and nothing stored changes; only a release already pending is still emitted |
| Settling.OvertakenReached | anchor-core/src/appliance.rs:289-416 | a new appliance whose first commit was cut before its counter move, and whose counter others then moved twice, is in that state |
| Recovery.ReachableSettles | anchor-core/src/appliance.rs:327-454 | with phase-atomic preparation at most two calls settle every reachable appliance |
| Liveness.TransfersComplete | anchor-core/src/appliance.rs:170-346 | undisturbed transfers are all finalized if and only if they chain from the active root and index and the counter has that many moves left; then all are exported in order and the appliance is settled |
| Liveness.ExhaustedPrepareMisjudged | anchor-core/src/appliance.rs:417-435 | for every H0: after H0 completed transfers the next one prepares, recovery calls it completable, and every commit fails |
| Completeness.OutcomeExactly | anchor-core/src/appliance.rs:229-416 | through any power cut of the commit and any interrupted recoveries, recovery reports the successor if and only if the candidate had been stored |
| Completeness.StoredCommitCompletes | anchor-core/src/appliance.rs:289-416 | then the counter has moved once, the release is the one an uninterrupted commit leaves, and finalize installs the successor |
| Completeness.RefusedUpdateCompletes | anchor-core/src/appliance.rs:300-408 | a counter update that reports failure, having moved or not, refuses the commit; one recovery completes it with exactly one move in all |
| Completeness.UnbegunCommitRepeats | anchor-core/src/appliance.rs:229-252 | a commit that wrote nothing leaves the preparation as it was, and can be repeated unless the counter is exhausted |
| Completeness.LostKeyNeverCompletes | anchor-core/src/appliance.rs:289-297 | a commit that lost the key never exports; only cancel changes the state, and gives the appliance back |
| Completeness.EndToEnd | anchor-core/src/appliance.rs:170-416 | prepare, commit cut anywhere, recoveries cut anywhere, emit: a matching receiver accepts, also over the wire, if and only if the candidate had been stored |
| Receivers.GenuineAccepted | anchor-core/src/accept.rs:101-224 | a genuine release is accepted exactly by receivers that pinned the anchor, issued the challenge and whose view suits |
| Receivers.ExportsAccepted | anchor-core/src/accept.rs:101-224 | the same for every export of every run, after the trip over the wire |
| Receivers.AcceptedAtLiveIndex | anchor-core/src/accept.rs:198-211 | with a faithful read index n is accepted only while H = H0 - n |
| Receivers.AcceptancesMoveForward | anchor-core/src/accept.rs:198-211 | over any joint run accepted indices never decrease, and exported releases accepted at one index are one release |
| Receivers.WindowCloses | anchor-core/src/accept.rs:30-39 | once the counter has passed H0 - n no release of index n is accepted again |
| Receivers.AcceptedUnderHonestKey | anchor-core/src/accept.rs:178-211 | what is accepted under any key the appliance derived is that derivation's honest release at the live index, or breaks the scheme |
| Receivers.AcceptedUnderExportKey | anchor-core/src/accept.rs:178-211 | in any joint run, what was accepted under the key of an export has that export's transition and certificate, or breaks the scheme |
| Receivers.AcceptancesAgree | anchor-core/src/accept.rs:198-211 | acceptances at one index, each under the key of some export, agree on the whole transition, or one breaks the scheme |
| Receivers.ReceivedUnforgeable | anchor-core/src/accept.rs:101-224 | the unforgeability result for a release decoded from a message, with no condition on its lengths |
| Receivers.WireAcceptancesAgree | anchor-core/src/accept.rs:198-211 | the agreement result where requests and releases travel over the wire, with no condition on lengths |
| Receivers.AnyKeyAccepted | anchor-core/src/accept.rs:101-224 | under the key of any seed a matching receiver accepts the release of a transition if and only if the counter stands at its index |
| Proto.DecodesExactlyInBounds | anchor-core/src/proto.rs:70-223 | the messages that decode are exactly the encodings of in-bounds releases, and they re-encode to themselves |
| Proto.TransitionRoundTrip | anchor-core/src/proto.rs:72-118 | a transition survives the wire when in bounds and is refused as too long otherwise |
| Proto.ReleaseErrors | anchor-core/src/proto.rs:186-205 | a release message fails with the error of its first absent or undecodable part, and decodes to its decoded parts |
| Proto.ExportsDecode | anchor-core/src/proto.rs:39-50 | every export of a run fed over the wire is in bounds and decodes to itself |
| Service.Dispatch | anchor-core/src/service.rs:88-137 | new state and response are those of the dispatch step |
| Service.Handle | anchor-core/src/service.rs:142-149 | oversized and malformed frames are answered without touching the appliance, others dispatched and the response encoded, for any message codec |
| Responses.ResponseShape | anchor-core/src/service.rs:65-137 | in every response the operation is echoed, ok means no error, and each payload field is set only by its operation |
| Responses.PrepareRequestExactly | anchor-core/src/service.rs:94-106 | a prepare request is taken exactly when it encodes an in-bounds transition and a 32-byte challenge, else refused with code 101 or 100 |
| Responses.PrepareResponse | anchor-core/src/service.rs:94-111 | ok exactly when the appliance is Ready for this transition at the live index and the chip answers; the transfer is then stored, else the code names the first failed condition |
| Responses.CommitResponse | anchor-core/src/service.rs:112-115 | ok exactly when a release is pending that was not before, one counter move later, with the exact condition of each error code |
| Responses.EmitResponse | anchor-core/src/service.rs:116-119 | ok exactly when a release is pending, and that release is returned |
| Responses.FinalizeResponse | anchor-core/src/service.rs:120-123 | ok exactly when the successor root was installed, and it is the root returned |
| Responses.CancelResponse | anchor-core/src/service.rs:130-133 | ok exactly when there was a prepared record, and it is gone |
| Responses.StatusResponse | anchor-core/src/service.rs:124-134 | status shows the active root, index and state; an unknown operation is refused with code 102; neither changes anything |
| Responses.FrameAnswers | anchor-core/src/service.rs:139-149 | oversized and undecodable frames are answered with codes 103 and 100 and touch nothing; every other frame is dispatched |
| Service.DispatchIsStep | anchor-core/src/service.rs:88-137 | a request is at most one protocol step, with an in-bounds transition |
| Service.ResponsesDecode | anchor-core/src/service.rs:116-119 | after any requests and reboots a release in a response decodes to the stored, genuine release |
| Service.FailuresChangeNothing | anchor-core/src/service.rs:38-137 | a failed response leaves the appliance unchanged, except a commit whose counter update was refused, which leaves its candidate |
| Service.SuspendedUntilRecovery | anchor-core/src/service.rs:88-137 | from there no request sequence changes the state and every request but a status query fails |
| Frames.Server.OnChunk | firmware/src/main.rs:314-344 | one read buffers or drops the chunk and serves every complete frame; the buffer stays within MAX_RX_FRAME + 4 and the inner loop ends |
| Frames.Server.ServeAll | firmware/src/main.rs:314-344 | the loop over all reads serves the frames of the reference reassembly |
| Frames.DeliversExactly | firmware/src/main.rs:314-344 | the sent frames are served, in order, if and only if each is within the cap and no chunk overfills the buffer |
| Frames.ShortFramesArrive | firmware/src/main.rs:314-344 | frames of at most MAX_RX_FRAME - 63 bytes arrive however the stream is cut |
| Frames.FlushedFramesArrive | firmware/src/main.rs:314-344 | frames up to MAX_RX_FRAME arrive when no chunk spans two frames |
| Frames.LongerFramesCanBeLost | firmware/src/main.rs:320-325 | for every larger size within the cap some cut of two frames loses one |
| Frames.FrameCap | firmware/src/main.rs:327-334 | a frame of up to 8192 bytes is served when complete; the length of a longer one clears the buffer |
| Frames.Resynchronizes | firmware/src/main.rs:320-334 | after a chunk that overfills the buffer or brings an overlong length, a stream of short frames starting with the next chunk arrives in full |
| ServeLoop.StreamDrivesAppliance | firmware/src/main.rs:314-344 | however a stream of short frames is cut, and whoever moves the counter in between, the loop handles the sent frames in order up to a power loss, and the appliance ends where the decoded requests take it, an interrupted one included |
| HostCodec.VarintLoop | tools/anchor_host_test.py:27-36 | the loop builds the base 128 varint |
| HostCodec.ReadVarintLoop | tools/anchor_host_test.py:51-60 | the shift-and-or loop reads value and offset, or runs off the end |
| HostCodec.VarintRoundTrip | tools/anchor_host_test.py:27-60 | reading back a varint gives the value and exact offset, for every natural number and position |
| HostCodec.VarintIsBase128 | tools/anchor_host_test.py:27-36 | a varint is the value in base 128, low group first, high bit set on all bytes but the last, without padding |
| HostCodec.KnownAnswers | tools/anchor_host_test.py:39-48 | the encodings given as examples in Protocol Buffers Encoding |
| HostCodec.ReadIsMinimal | tools/anchor_host_test.py:51-60 | the bytes read are the varint of the value if and only if they have no trailing zero byte |
| HostCodec.Parse | tools/anchor_host_test.py:63-78 | the parse loop always advances and yields the field map of the reference parser |
| HostCodec.LastWinsMeaning | tools/anchor_host_test.py:63-78 | in that map a field has the value of its last occurrence |
| HostCodec.ParseOfEncode | tools/anchor_host_test.py:39-78 | parsing any concatenation of encoded fields returns their last-wins map |
| HostCodec.OtherWireTypes | tools/anchor_host_test.py:76-77 | complete fields followed by a field of another wire type give the ValueError for that type |
| HostCodec.CutNoticedExactly | tools/anchor_host_test.py:51-78 | complete fields followed by a cut one parse if and only if the cut lies behind the header of a byte field, then with that field shortened; every other cut is an IndexError |

## Left out

- BLAKE3, the generated protobuf code and the chip driver: uninterpreted functions, an arbitrary `Codec` and the `Tropic` contract stand for them.
- Other witness schemes: the appliance and the receiver are modelled with the WOTS profile only.
- Board bring-up, USB and SPI, timers, boot log, self-test, and the writing of responses in the serve loop: I/O.
- Serial port handling, request builders and `main` of the host tool: I/O and fixed data.
- DSM tree proofs and transcript authentication: parameters a receiver supplies.
- Rollback or outside overwriting of the stored record, timing and memory-wiping guarantees: outside the model; erasing a key empties it.
- Borrowed and owned transitions, and the boxed records: one immutable value each, so that no aliasing exists is taken from the source's ownership rules.
- Anchor.Appliance.Finalize: its one structure assignment is one durable write, so a cut inside it is not modelled.
- Anchor.Appliance.Prepare: a power loss between the chip's answer and the first write is a cut before that write; of the chip's slots the model keeps what they were asked, and lets the answers be arbitrary.
- Receivers.AcceptancesMoveForward: agreement on the successor is stated for releases the appliance exported; releases accepted under the key of an export are the subject of Receivers.AcceptancesAgree; under other keys nothing more holds (Receivers.AnyKeyAccepted).
- Receivers.AcceptedUnderExportKey: the counter claims that travel beside the certificate are not signed, so they are not pinned.
- ServeLoop.StreamDrivesAppliance: the session ends at a power loss; what a host sends after the reboot is a new stream.
