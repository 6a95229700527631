/** Conversions between the wire messages and the domain values (`proto.rs`). The
    generated message types carry every 32-byte field as plain bytes. */
module Proto {
  import opened Util
  import opened Hashing
  import opened RootAdvance
  import opened DeviceModel
  import opened Protocol
  import LinearHistory
  import Wots

  datatype ProtoError = BadLength | MissingField | BadOp | BadSlot | Decode

  const MAX_ACTION_FIELDS := 256
  const MAX_LEAF_PROOF := 16 * 1024
  const MAX_PK_HW := 4 * 1024
  const MAX_SIGMA := 16 * 1024
  const MAX_TRANSCRIPT := 8 * 1024

  datatype TransitionPackage = TransitionPackage(
    relationshipId: Bytes,
    objectId: Bytes,
    senderDeviceId: Bytes,
    recipientDeviceId: Bytes,
    prevRoot: Bytes,
    nextRoot: Bytes,
    anchorCounter: u64,
    nextAnchorCounter: u64,
    actionType: u32,
    actionFields: Bytes,
    payloadHash: Bytes,
    oldLeafProof: Bytes,
    newLeafProof: Bytes,
    authorityPolicyHash: Bytes)

  datatype RootAdvanceCertificate = RootAdvanceCertificate(
    prevRoot: Bytes,
    nextRoot: Bytes,
    anchorCounter: u64,
    nextAnchorCounter: u64,
    transitionDigest: Bytes,
    witnessInput: Bytes,
    pkHash: Bytes,
    pkHw: Bytes,
    sigma: Bytes,
    anchorId: Bytes,
    slot: u32,
    receiverChallenge: Bytes)

  datatype EvidenceMessage = EvidenceMessage(
    anchorId: Bytes,
    enrolledCounter: u64,
    liveCounterClaim: u64,
    derivedIndexClaim: u64,
    verifierTranscript: Bytes)

  datatype ReleaseMessage = ReleaseMessage(
    transition: Option<TransitionPackage>,
    cert: Option<RootAdvanceCertificate>,
    counter: Option<EvidenceMessage>)

  function Arr32(v: Bytes): Result<Digest, ProtoError> {
    if |v| != 32 then Err(BadLength) else Ok(v)
  }

  function Bounded(v: Bytes, cap: nat): Result<(), ProtoError> {
    if |v| > cap then Err(BadLength) else Ok(())
  }

  function ToOwnedTransition(m: TransitionPackage): Result<Transition, ProtoError> {
    var _ :- Bounded(m.actionFields, MAX_ACTION_FIELDS);
    var _ :- Bounded(m.oldLeafProof, MAX_LEAF_PROOF);
    var _ :- Bounded(m.newLeafProof, MAX_LEAF_PROOF);
    var relationshipId :- Arr32(m.relationshipId);
    var objectId :- Arr32(m.objectId);
    var senderDeviceId :- Arr32(m.senderDeviceId);
    var recipientDeviceId :- Arr32(m.recipientDeviceId);
    var prevRoot :- Arr32(m.prevRoot);
    var nextRoot :- Arr32(m.nextRoot);
    var payloadHash :- Arr32(m.payloadHash);
    var authorityPolicyHash :- Arr32(m.authorityPolicyHash);
    Ok(Transition(relationshipId, objectId, senderDeviceId, recipientDeviceId, prevRoot, nextRoot, m.anchorCounter,
                  m.nextAnchorCounter, m.actionType, m.actionFields, payloadHash, m.oldLeafProof, m.newLeafProof,
                  authorityPolicyHash))
  }

  function TransitionToPb(t: Transition): TransitionPackage {
    TransitionPackage(t.relationshipId, t.objectId, t.senderDeviceId, t.recipientDeviceId, t.prevRoot, t.nextRoot,
                      t.anchorCounter, t.nextAnchorCounter, t.actionType, t.actionFields, t.payloadHash,
                      t.oldLeafProof, t.newLeafProof, t.authorityPolicyHash)
  }

  function ToCert(m: RootAdvanceCertificate): Result<Certificate, ProtoError> {
    var _ :- Bounded(m.pkHw, MAX_PK_HW);
    var _ :- Bounded(m.sigma, MAX_SIGMA);
    if m.slot > 0xffff then Err(BadSlot) else
    var prevRoot :- Arr32(m.prevRoot);
    var nextRoot :- Arr32(m.nextRoot);
    var transitionDigest :- Arr32(m.transitionDigest);
    var witnessInput :- Arr32(m.witnessInput);
    var pkHash :- Arr32(m.pkHash);
    var anchorId :- Arr32(m.anchorId);
    var receiverChallenge :- Arr32(m.receiverChallenge);
    Ok(Certificate(prevRoot, nextRoot, m.anchorCounter, m.nextAnchorCounter, transitionDigest, witnessInput, pkHash,
                   m.pkHw, m.sigma, anchorId, m.slot, receiverChallenge))
  }

  function CertToPb(c: Certificate): RootAdvanceCertificate {
    RootAdvanceCertificate(c.prevRoot, c.nextRoot, c.anchorCounter, c.nextAnchorCounter, c.transitionDigest,
                           c.witnessInput, c.pkHash, c.pkHw, c.sigma, c.anchorId, c.slot, c.receiverChallenge)
  }

  function ToEvidence(m: EvidenceMessage): Result<CounterEvidence, ProtoError> {
    var _ :- Bounded(m.verifierTranscript, MAX_TRANSCRIPT);
    var anchorId :- Arr32(m.anchorId);
    Ok(CounterEvidence(anchorId, m.enrolledCounter, m.liveCounterClaim, m.derivedIndexClaim, m.verifierTranscript))
  }

  function EvidenceToPb(e: CounterEvidence): EvidenceMessage {
    EvidenceMessage(e.anchorId, e.enrolledCounter, e.liveCounterClaim, e.derivedIndexClaim, e.verifierTranscript)
  }

  function Required<T>(v: Option<T>): Result<T, ProtoError> {
    match v case Some(x) => Ok(x) case None => Err(MissingField)
  }

  function ToRelease(m: ReleaseMessage): Result<OfflineRelease, ProtoError> {
    var tm :- Required(m.transition);
    var t :- ToOwnedTransition(tm);
    var cm :- Required(m.cert);
    var c :- ToCert(cm);
    var em :- Required(m.counter);
    var e :- ToEvidence(em);
    Ok(OfflineRelease(t, c, e))
  }

  function ReleaseToPb(r: OfflineRelease): ReleaseMessage {
    ReleaseMessage(Some(TransitionToPb(r.transition)), Some(CertToPb(r.cert)), Some(EvidenceToPb(r.counter)))
  }

  // ----- round trips -----

  predicate TransitionInBounds(t: Transition) {
    |t.actionFields| <= MAX_ACTION_FIELDS && |t.oldLeafProof| <= MAX_LEAF_PROOF && |t.newLeafProof| <= MAX_LEAF_PROOF
  }

  predicate InBounds(r: OfflineRelease) {
    && TransitionInBounds(r.transition)
    && |r.cert.pkHw| <= MAX_PK_HW && |r.cert.sigma| <= MAX_SIGMA
    && |r.counter.verifierTranscript| <= MAX_TRANSCRIPT
  }

  lemma TransitionRoundTrip(t: Transition)
    ensures ToOwnedTransition(TransitionToPb(t)) == if TransitionInBounds(t) then Ok(t) else Err(BadLength)
  {
  }

  lemma TransitionReencodes(m: TransitionPackage)
    requires ToOwnedTransition(m).Ok?
    ensures var t := ToOwnedTransition(m).value; TransitionToPb(t) == m && TransitionInBounds(t)
  {
  }

  /** The wire transition decodes to the transition with the same fields, by name;
      the only way to fail is a length. */
  lemma TransitionFields(m: TransitionPackage, t: Transition)
    ensures ToOwnedTransition(m) == Ok(t) <==>
            && m.relationshipId == t.relationshipId && m.objectId == t.objectId
            && m.senderDeviceId == t.senderDeviceId && m.recipientDeviceId == t.recipientDeviceId
            && m.prevRoot == t.prevRoot && m.nextRoot == t.nextRoot
            && m.anchorCounter == t.anchorCounter && m.nextAnchorCounter == t.nextAnchorCounter
            && m.actionType == t.actionType && m.actionFields == t.actionFields && |m.actionFields| <= 256
            && m.payloadHash == t.payloadHash && m.oldLeafProof == t.oldLeafProof && |m.oldLeafProof| <= 16384
            && m.newLeafProof == t.newLeafProof && |m.newLeafProof| <= 16384
            && m.authorityPolicyHash == t.authorityPolicyHash
    ensures ToOwnedTransition(m).Err? ==> ToOwnedTransition(m) == Err(BadLength)
  {
  }

  lemma CertFields(m: RootAdvanceCertificate, c: Certificate)
    ensures ToCert(m) == Ok(c) <==>
            && m.prevRoot == c.prevRoot && m.nextRoot == c.nextRoot
            && m.anchorCounter == c.anchorCounter && m.nextAnchorCounter == c.nextAnchorCounter
            && m.transitionDigest == c.transitionDigest && m.witnessInput == c.witnessInput && m.pkHash == c.pkHash
            && m.pkHw == c.pkHw && |m.pkHw| <= 4096 && m.sigma == c.sigma && |m.sigma| <= 16384
            && m.anchorId == c.anchorId && m.slot == c.slot && m.receiverChallenge == c.receiverChallenge
    ensures ToCert(m) == Err(BadSlot) <==> |m.pkHw| <= 4096 && |m.sigma| <= 16384 && m.slot > 0xffff
    ensures ToCert(m).Err? ==> ToCert(m).error in {BadLength, BadSlot}
  {
  }

  lemma EvidenceFields(m: EvidenceMessage, e: CounterEvidence)
    ensures ToEvidence(m) == Ok(e) <==>
            && m.anchorId == e.anchorId && m.enrolledCounter == e.enrolledCounter
            && m.liveCounterClaim == e.liveCounterClaim && m.derivedIndexClaim == e.derivedIndexClaim
            && m.verifierTranscript == e.verifierTranscript && |m.verifierTranscript| <= 8192
    ensures ToEvidence(m).Err? ==> ToEvidence(m) == Err(BadLength)
  {
  }

  /** A release message is judged part by part, in the order transition,
      certificate, evidence: the first part that is absent or does not decode gives
      the error. */
  lemma ReleaseErrors(m: ReleaseMessage)
    ensures var t := m.transition.Some? && ToOwnedTransition(m.transition.value).Ok?;
            var c := t && m.cert.Some? && ToCert(m.cert.value).Ok?;
            && (ToRelease(m).Ok? <==> c && m.counter.Some? && ToEvidence(m.counter.value).Ok?)
            && (ToRelease(m) == Err(MissingField) <==>
                  m.transition.None? || (t && m.cert.None?) || (c && m.counter.None?))
            && (ToRelease(m) == Err(BadSlot) <==> t && m.cert.Some? && ToCert(m.cert.value) == Err(BadSlot))
            && (ToRelease(m).Err? ==> ToRelease(m).error in {BadLength, MissingField, BadSlot})
            && (ToRelease(m).Ok? ==>
                  ToRelease(m).value == OfflineRelease(ToOwnedTransition(m.transition.value).value,
                                                       ToCert(m.cert.value).value, ToEvidence(m.counter.value).value))
  {
    hide ToOwnedTransition, ToCert, ToEvidence;
    if m.transition.Some? && ToOwnedTransition(m.transition.value).Err? {
      TransitionOnlyLengths(m.transition.value);
    }
    if m.cert.Some? && ToCert(m.cert.value).Err? { CertOnlyLengths(m.cert.value); }
    if m.counter.Some? && ToEvidence(m.counter.value).Err? { EvidenceOnlyLengths(m.counter.value); }
  }

  lemma TransitionOnlyLengths(m: TransitionPackage)
    requires ToOwnedTransition(m).Err?
    ensures ToOwnedTransition(m) == Err(BadLength)
  {
  }

  lemma CertOnlyLengths(m: RootAdvanceCertificate)
    requires ToCert(m).Err?
    ensures ToCert(m).error in {BadLength, BadSlot}
  {
  }

  lemma EvidenceOnlyLengths(m: EvidenceMessage)
    requires ToEvidence(m).Err?
    ensures ToEvidence(m) == Err(BadLength)
  {
  }

  /** The messages that decode are exactly the encodings of in-bounds releases: a
      release survives the wire if and only if it is within bounds, and a message
      that decodes re-encodes to itself. */
  lemma DecodesExactlyInBounds(m: ReleaseMessage, r: OfflineRelease)
    ensures ToRelease(m) == Ok(r) <==> InBounds(r) && m == ReleaseToPb(r)
  {
    TransitionRoundTrip(r.transition);
    if ToRelease(m) == Ok(r) {
      var tm := m.transition.value;
      TransitionReencodes(tm);
      assert CertToPb(r.cert) == m.cert.value;
      assert EvidenceToPb(r.counter) == m.counter.value;
    }
  }

  // ----- bounds over whole runs -----

  /** Prepared transitions came through `ToOwnedTransition`. */
  predicate FromWire(s: Step) { s.Prepare? ==> TransitionInBounds(s.t) }

  predicate RecordInBounds(d: Device) {
    match d.active.record
    case PreparedRec(p) => TransitionInBounds(p.txn)
    case CommittedRec(c) => TransitionInBounds(c.release.transition)
    case NoRecord => true
  }

  lemma BoundsStep(o: Hashes, d: Device, s: Step)
    requires RecordInBounds(d) && FromWire(s)
    ensures RecordInBounds(DeviceStep(o, d, s))
  {
    hide TransitionInBounds, RecordOf;
    if s.Prepare? && PrepareCheck(o, d, s.t, s.challenge, s.env).Ok? {
      RecordTxn(o, PrepareCheck(o, d, s.t, s.challenge, s.env).value);
    }
  }

  ghost predicate WorldInBounds(w: World) {
    && RecordInBounds(w.dev)
    && forall i :: 0 <= i < |w.ledger| ==> TransitionInBounds(w.ledger[i].transition)
  }

  lemma {:induction false} BoundsRun(o: Hashes, w: World, steps: seq<Step>)
    requires WorldInBounds(w) && forall i :: 0 <= i < |steps| ==> FromWire(steps[i])
    ensures WorldInBounds(Run(o, w, steps))
    decreases |steps|
  {
    hide DeviceStep, TransitionInBounds, FromWire;
    if |steps| > 0 {
      BoundsStep(o, w.dev, steps[0]);
      assert forall i :: 0 <= i < |steps[1..]| ==> steps[1..][i] == steps[i + 1];
      BoundsRun(o, Next(o, w, steps[0]), steps[1..]);
    }
  }

  lemma GenuineInBounds(o: Hashes, id: Identity, r: OfflineRelease)
    requires Genuine(o, id, r) && TransitionInBounds(r.transition)
    ensures InBounds(r)
  {
    hide Wots.Reached, Wots.Compress;
  }

  /** Wire closure: every release exported in a run whose transitions came over the
      wire is within all bounds, so it decodes at the receiver to itself. */
  lemma ExportsDecode(o: Hashes, id: Identity, h: u32, root: Digest, steps: seq<Step>, k: nat)
    requires forall i :: 0 <= i < |steps| ==> FromWire(steps[i])
    requires k < |Run(o, Init(id, h, root), steps).exports|
    ensures var r := Run(o, Init(id, h, root), steps).exports[k];
            InBounds(r) && ToRelease(ReleaseToPb(r)) == Ok(r)
  {
    hide Run, Linked, LedgerInv, OriginInv, Genuine;
    var w := Run(o, Init(id, h, root), steps);
    var r := w.exports[k];
    BoundsRun(o, Init(id, h, root), steps);
    LinearHistory.ExportIsGenuine(o, id, h, root, steps, k);
    LinearHistory.ExportInHistory(o, id, h, root, steps, k);
    GenuineInBounds(o, id, r);
    DecodesExactlyInBounds(ReleaseToPb(r), r);
  }
}
