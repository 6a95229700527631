/** The receiver's acceptance predicate (`accept.rs`), with the WOTS profile. */
module Accept {
  import opened Util
  import opened Hashing
  import opened RootAdvance
  import Wots

  /** The DSM-state checks a receiver supplies. */
  datatype DsmVerifier = DsmVerifier(
    rootCommitsCounter: (Digest, u64) -> bool,
    verifyTransition: Transition -> bool,
    deliversToReceiver: Transition -> bool)

  /** The receiver's own authenticated chip read, for an anchor and evidence. */
  type CounterVerifier = (Digest, CounterEvidence) -> Option<u64>

  datatype VerifierContext = VerifierContext(
    acceptedPrevRoot: Digest,
    pinnedAnchorId: Digest,
    expectedReceiverChallenge: Digest,
    expectedPolicyHash: Digest,
    enrolledCounter: u64,
    exposureCapIndex: u64,
    anchorUncompromised: bool)

  datatype AcceptError =
    | NonCanonical
    | PrevRootNotAccepted
    | AnchorCounterUncommitted
    | BadNextIndex
    | ChallengeMismatch
    | DigestMismatch
    | TransitionProofInvalid
    | NotDeliveredToReceiver
    | PolicyMismatch
    | WitnessInputMismatch
    | PkHashMismatch
    | WitnessSigInvalid
    | CounterEvidenceInvalid
    | ExposureCapExceeded
    | AnchorCompromised
  {
    /** The number of the check in the definition of acceptance; 12, the
        recomputation of the message, cannot fail by itself. */
    function Number(): nat {
      match this
      case NonCanonical => 1
      case PrevRootNotAccepted => 2
      case AnchorCounterUncommitted => 3
      case BadNextIndex => 4
      case ChallengeMismatch => 5
      case DigestMismatch => 6
      case TransitionProofInvalid => 7
      case NotDeliveredToReceiver => 8
      case PolicyMismatch => 9
      case WitnessInputMismatch => 10
      case PkHashMismatch => 11
      case WitnessSigInvalid => 13
      case CounterEvidenceInvalid => 14
      case ExposureCapExceeded => 15
      case AnchorCompromised => 16
    }
  }

  /** What a certificate claims to be bound to. */
  function BindingOf(rel: OfflineRelease): Binding {
    Binding(rel.transition, rel.cert.anchorId, rel.cert.slot, rel.cert.receiverChallenge, rel.cert.pkHw)
  }

  function AcceptOffline(o: Hashes, rel: OfflineRelease, ctx: VerifierContext, dsm: DsmVerifier,
                         counter: CounterVerifier): Result<(), AcceptError>
  {
    var t, cert, ev := rel.transition, rel.cert, rel.counter;
    if cert.prevRoot != t.prevRoot || cert.nextRoot != t.nextRoot || cert.anchorCounter != t.anchorCounter
       || cert.nextAnchorCounter != t.nextAnchorCounter then Err(NonCanonical) else
    if t.prevRoot != ctx.acceptedPrevRoot || cert.anchorId != ctx.pinnedAnchorId then Err(PrevRootNotAccepted) else
    if !dsm.rootCommitsCounter(t.prevRoot, t.anchorCounter) then Err(AnchorCounterUncommitted) else
    if t.anchorCounter + 1 > 0xffff_ffff_ffff_ffff || t.anchorCounter + 1 != t.nextAnchorCounter
      then Err(BadNextIndex) else
    if cert.receiverChallenge != ctx.expectedReceiverChallenge then Err(ChallengeMismatch) else
    var d := TransitionDigestOf(o, t);
    if d != cert.transitionDigest then Err(DigestMismatch) else
    if !dsm.verifyTransition(t) then Err(TransitionProofInvalid) else
    if !dsm.deliversToReceiver(t) then Err(NotDeliveredToReceiver) else
    if t.authorityPolicyHash != ctx.expectedPolicyHash then Err(PolicyMismatch) else
    var x := WitnessInputOf(o, t, d, cert.anchorId, cert.slot, cert.receiverChallenge);
    if x != cert.witnessInput then Err(WitnessInputMismatch) else
    var pHw := PkHashOf(o, cert.pkHw);
    if pHw != cert.pkHash then Err(PkHashMismatch) else
    var m := CertMessageOf(o, t, d, x, pHw, cert.anchorId, cert.slot, cert.receiverChallenge);
    if !Wots.Verify(o, cert.pkHw, m, cert.sigma) then Err(WitnessSigInvalid) else
    if ctx.enrolledCounter < t.nextAnchorCounter then Err(CounterEvidenceInvalid) else
    var attested := counter(ctx.pinnedAnchorId, ev);
    if attested.None? then Err(CounterEvidenceInvalid) else
    if ev.anchorId != ctx.pinnedAnchorId || attested.value != ctx.enrolledCounter - t.nextAnchorCounter
      then Err(CounterEvidenceInvalid) else
    if t.nextAnchorCounter > ctx.exposureCapIndex then Err(ExposureCapExceeded) else
    if !ctx.anchorUncompromised then Err(AnchorCompromised) else
    Ok(())
  }

  /** Each check on its own, in no particular order. */
  predicate Holds(o: Hashes, rel: OfflineRelease, ctx: VerifierContext, dsm: DsmVerifier, counter: CounterVerifier,
                  e: AcceptError)
  {
    var t, cert, b := rel.transition, rel.cert, BindingOf(rel);
    match e
    case AnchorCompromised => ctx.anchorUncompromised
    case ExposureCapExceeded => t.nextAnchorCounter <= ctx.exposureCapIndex
    case CounterEvidenceInvalid =>
      && rel.counter.anchorId == ctx.pinnedAnchorId
      && var read := counter(ctx.pinnedAnchorId, rel.counter);
         read.Some? && read.value + t.nextAnchorCounter == ctx.enrolledCounter
    case WitnessSigInvalid => Wots.Verify(o, cert.pkHw, b.M(o), cert.sigma)
    case PkHashMismatch => cert.pkHash == PkHashOf(o, cert.pkHw)
    case WitnessInputMismatch => cert.witnessInput == b.X(o)
    case PolicyMismatch => t.authorityPolicyHash == ctx.expectedPolicyHash
    case NotDeliveredToReceiver => dsm.deliversToReceiver(t)
    case TransitionProofInvalid => dsm.verifyTransition(t)
    case DigestMismatch => cert.transitionDigest == b.D(o)
    case ChallengeMismatch => cert.receiverChallenge == ctx.expectedReceiverChallenge
    case BadNextIndex => t.nextAnchorCounter == t.anchorCounter + 1
    case AnchorCounterUncommitted => dsm.rootCommitsCounter(t.prevRoot, t.anchorCounter)
    case PrevRootNotAccepted => t.prevRoot == ctx.acceptedPrevRoot && cert.anchorId == ctx.pinnedAnchorId
    case NonCanonical =>
      (cert.prevRoot, cert.nextRoot, cert.anchorCounter, cert.nextAnchorCounter)
      == (t.prevRoot, t.nextRoot, t.anchorCounter, t.nextAnchorCounter)
  }

  /** A release is rejected with the lowest-numbered check that does not hold,
      and accepted exactly when all hold. */
  lemma FirstFailureDecides(o: Hashes, rel: OfflineRelease, ctx: VerifierContext, dsm: DsmVerifier,
                            counter: CounterVerifier)
    ensures match AcceptOffline(o, rel, ctx, dsm, counter)
            case Ok(_) => forall e :: Holds(o, rel, ctx, dsm, counter, e)
            case Err(e) =>
              && !Holds(o, rel, ctx, dsm, counter, e)
              && forall f: AcceptError :: f.Number() < e.Number() ==> Holds(o, rel, ctx, dsm, counter, f)
  {
    hide Wots.Verify, TransitionDigestOf, WitnessInputOf, PkHashOf, CertMessageOf;
    var r := AcceptOffline(o, rel, ctx, dsm, counter);
    if r.Err? {
      FailedCheck(o, rel, ctx, dsm, counter);
    }
    forall f: AcceptError | r.Ok? || f.Number() < r.error.Number()
      ensures Holds(o, rel, ctx, dsm, counter, f)
    {
      EarlierCheck(o, rel, ctx, dsm, counter, f);
    }
  }

  lemma FailedCheck(o: Hashes, rel: OfflineRelease, ctx: VerifierContext, dsm: DsmVerifier, counter: CounterVerifier)
    requires AcceptOffline(o, rel, ctx, dsm, counter).Err?
    ensures !Holds(o, rel, ctx, dsm, counter, AcceptOffline(o, rel, ctx, dsm, counter).error)
  {
    hide Wots.Verify, TransitionDigestOf, WitnessInputOf, PkHashOf, CertMessageOf;
  }

  lemma EarlierCheck(o: Hashes, rel: OfflineRelease, ctx: VerifierContext, dsm: DsmVerifier, counter: CounterVerifier,
                     f: AcceptError)
    requires var r := AcceptOffline(o, rel, ctx, dsm, counter); r.Ok? || f.Number() < r.error.Number()
    ensures Holds(o, rel, ctx, dsm, counter, f)
  {
    hide Wots.Verify, TransitionDigestOf, WitnessInputOf, PkHashOf, CertMessageOf;
  }

  /** The certificate an honest appliance issues for a binding and a signature. */
  function CertificateFor(o: Hashes, b: Binding, sigma: Bytes): Certificate {
    Certificate(b.t.prevRoot, b.t.nextRoot, b.t.anchorCounter, b.t.nextAnchorCounter, b.D(o), b.X(o),
                PkHashOf(o, b.pkHw), b.pkHw, sigma, b.anchorId, b.slot, b.challenge)
  }

  /** Acceptance pins every field of the certificate: it is the one certificate
      for the transition, the pinned anchor and the receiver's challenge. */
  ghost predicate Acceptable(o: Hashes, rel: OfflineRelease, ctx: VerifierContext, dsm: DsmVerifier,
                             counter: CounterVerifier)
  {
    var t := rel.transition;
    var b := Binding(t, ctx.pinnedAnchorId, rel.cert.slot, ctx.expectedReceiverChallenge, rel.cert.pkHw);
    && rel.cert == CertificateFor(o, b, rel.cert.sigma)
    && Wots.Verify(o, b.pkHw, b.M(o), rel.cert.sigma)
    && t.nextAnchorCounter == t.anchorCounter + 1
    && Suits(rel, ctx, dsm, counter)
  }

  /** What acceptance asks of the receiver's own view rather than of the
      certificate. */
  ghost predicate Suits(rel: OfflineRelease, ctx: VerifierContext, dsm: DsmVerifier, counter: CounterVerifier) {
    var t := rel.transition;
    && t.prevRoot == ctx.acceptedPrevRoot && t.authorityPolicyHash == ctx.expectedPolicyHash
    && dsm.rootCommitsCounter(t.prevRoot, t.anchorCounter) && dsm.verifyTransition(t) && dsm.deliversToReceiver(t)
    && rel.counter.anchorId == ctx.pinnedAnchorId
    && counter(ctx.pinnedAnchorId, rel.counter).Some?
    && counter(ctx.pinnedAnchorId, rel.counter).value + t.nextAnchorCounter == ctx.enrolledCounter
    && t.nextAnchorCounter <= ctx.exposureCapIndex && ctx.anchorUncompromised
  }

  lemma AcceptedIsCanonical(o: Hashes, rel: OfflineRelease, ctx: VerifierContext, dsm: DsmVerifier,
                            counter: CounterVerifier)
    ensures AcceptOffline(o, rel, ctx, dsm, counter).Ok? <==> Acceptable(o, rel, ctx, dsm, counter)
  {
  }

  /** How an accepted release that is not the honest one breaks the scheme. Every
      alternative names its strings: two preimages of the message or of the
      digest, the two inputs of the key compression, or a chain of the signature. */
  ghost predicate SchemeBroken(o: Hashes, seed: Digest, b: Binding, rel: OfflineRelease)
    requires |rel.cert.sigma| == Wots.SIG_LEN
  {
    var c := BindingOf(rel);
    || o.Collide(c.MPreimage(o), b.MPreimage(o))
    || o.Collide(c.DPreimage(), b.DPreimage())
    || Wots.PkCollision(o, seed, c.M(o), rel.cert.sigma)
    || (c.M(o) != b.M(o)
        && exists i: nat :: i < Wots.LEN && Wots.ChainBroken(o, seed, b.M(o), c.M(o), rel.cert.sigma, i))
    || (c.M(o) == b.M(o) && ForkedChain(o, seed, b.M(o), rel.cert.sigma))
  }

  /** A second signature on the same message: two chains that meet. */
  ghost predicate ForkedChain(o: Hashes, seed: Digest, m: Digest, sigma: Bytes)
    requires |sigma| == Wots.SIG_LEN
  {
    exists i: nat, j: nat :: i < Wots.LEN && j < Wots.W - 1 - Wots.DigitsOf(m)[i]
      && Wots.MeetAt(o, Wots.Block(sigma, i), Wots.Block(Wots.Sign(o, seed, m), i), j)
  }

  /** A release that carries the canonical certificate for its transition, with a
      verifying signature. */
  ghost predicate Certified(o: Hashes, rel: OfflineRelease) {
    var b := BindingOf(rel);
    rel.cert == CertificateFor(o, b, rel.cert.sigma) && Wots.Verify(o, b.pkHw, b.M(o), rel.cert.sigma)
  }

  lemma AcceptedIsCertified(o: Hashes, rel: OfflineRelease, ctx: VerifierContext, dsm: DsmVerifier,
                            counter: CounterVerifier)
    requires AcceptOffline(o, rel, ctx, dsm, counter).Ok?
    ensures Certified(o, rel)
  {
    hide AcceptOffline, Wots.Verify, TransitionDigestOf, WitnessInputOf, PkHashOf, CertMessageOf;
    AcceptedIsCanonical(o, rel, ctx, dsm, counter);
  }

  /** A certified release under the public key of an honest seed, whose one
      signature was on the message of `b`, is the honest release for `b`, or breaks
      the scheme. */
  lemma CertifiedUnforgeable(o: Hashes, rel: OfflineRelease, seed: Digest, b: Binding)
    requires Certified(o, rel)
    requires Prefixable(rel.transition) && Prefixable(b.t)
    requires rel.cert.pkHw == b.pkHw == Wots.PublicKey(o, seed)
    ensures |rel.cert.sigma| == Wots.SIG_LEN
    ensures || (rel.transition == b.t && rel.cert == CertificateFor(o, b, Wots.Sign(o, seed, b.M(o))))
            || SchemeBroken(o, seed, b, rel)
  {
    var c, sigma := BindingOf(rel), rel.cert.sigma;
    if c.M(o) != b.M(o) {
      Wots.ForgeryReduction(o, seed, b.M(o), c.M(o), sigma);
    } else {
      MessageBinds(o, c, b);
      if sigma != Wots.Sign(o, seed, b.M(o)) {
        Wots.SignatureUnique(o, seed, b.M(o), sigma);
      }
    }
  }

  /** Unforgeability reduction: an accepted release that carries the public key of
      an honest seed, whose one signature was on the message of `b`, is the
      honest release for `b`, certificate and all, or breaks the scheme. */
  lemma Unforgeable(o: Hashes, rel: OfflineRelease, ctx: VerifierContext, dsm: DsmVerifier, counter: CounterVerifier,
                    seed: Digest, b: Binding)
    requires AcceptOffline(o, rel, ctx, dsm, counter).Ok?
    requires Prefixable(rel.transition) && Prefixable(b.t)
    requires rel.cert.pkHw == b.pkHw == Wots.PublicKey(o, seed)
    ensures |rel.cert.sigma| == Wots.SIG_LEN
    ensures || (rel.transition == b.t && rel.cert == CertificateFor(o, b, Wots.Sign(o, seed, b.M(o))))
            || SchemeBroken(o, seed, b, rel)
  {
    hide AcceptOffline, Certified, CertificateFor, SchemeBroken, Wots.PublicKey, Wots.Sign;
    AcceptedIsCertified(o, rel, ctx, dsm, counter);
    CertifiedUnforgeable(o, rel, seed, b);
  }
}
