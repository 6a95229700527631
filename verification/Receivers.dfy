/** The appliance together with its receivers: what an appliance exports is
    accepted, and what receivers accept moves only forward. */
module Receivers {
  import opened Util
  import opened Hashing
  import opened RootAdvance
  import opened DeviceModel
  import opened Protocol
  import opened Accept
  import opened LinearHistory
  import Proto
  import Wots

  /** An authentic read of the chip whose counter is `h`, or no read at all. */
  function ChipRead(h: u32, available: bool): CounterVerifier {
    (_, _) => if available then Some(h) else None
  }

  // ----- completeness -----

  /** A genuine release is accepted exactly by the receivers that pinned the
      appliance, issued the challenge, and whose own view suits: the certificate
      never stands in the way. */
  lemma GenuineAccepted(o: Hashes, id: Identity, r: OfflineRelease, ctx: VerifierContext, dsm: DsmVerifier,
                        counter: CounterVerifier)
    requires Genuine(o, id, r)
    ensures AcceptOffline(o, r, ctx, dsm, counter).Ok? <==>
            && ctx.pinnedAnchorId == id.anchorId
            && ctx.expectedReceiverChallenge == r.cert.receiverChallenge
            && Suits(r, ctx, dsm, counter)
  {
    hide Wots.Verify, TransitionDigestOf, WitnessInputOf, PkHashOf, CertMessageOf, AcceptOffline;
    AcceptedIsCanonical(o, r, ctx, dsm, counter);
  }

  /** Completeness over all runs: whatever happened before, an exported release is
      accepted exactly by the receivers it suits, also after a trip over the wire. */
  lemma ExportsAccepted(o: Hashes, id: Identity, h: u32, root: Digest, steps: seq<Step>, k: nat, ctx: VerifierContext,
                        dsm: DsmVerifier, counter: CounterVerifier)
    requires forall i :: 0 <= i < |steps| ==> Proto.FromWire(steps[i])
    requires k < |Run(o, Init(id, h, root), steps).exports|
    ensures var r := Run(o, Init(id, h, root), steps).exports[k];
            var received := Proto.ToRelease(Proto.ReleaseToPb(r));
            && received.Ok?
            && (AcceptOffline(o, received.value, ctx, dsm, counter).Ok? <==>
                  && ctx.pinnedAnchorId == id.anchorId
                  && ctx.expectedReceiverChallenge == r.cert.receiverChallenge
                  && Suits(r, ctx, dsm, counter))
  {
    hide Run, Genuine, Suits, AcceptOffline, Proto.ToRelease;
    Proto.ExportsDecode(o, id, h, root, steps, k);
    ExportIsGenuine(o, id, h, root, steps, k);
    GenuineAccepted(o, id, Run(o, Init(id, h, root), steps).exports[k], ctx, dsm, counter);
  }

  /** A receiver that matches the transfer and trusts its DSM checks. */
  ghost predicate Matches(ctx: VerifierContext, dsm: DsmVerifier, id: Identity, t: Transition, challenge: Digest) {
    && ctx.acceptedPrevRoot == t.prevRoot && ctx.expectedPolicyHash == t.authorityPolicyHash
    && ctx.pinnedAnchorId == id.anchorId && ctx.enrolledCounter == id.h0
    && ctx.expectedReceiverChallenge == challenge
    && t.nextAnchorCounter <= ctx.exposureCapIndex && ctx.anchorUncompromised
    && dsm.rootCommitsCounter(t.prevRoot, t.anchorCounter) && dsm.verifyTransition(t) && dsm.deliversToReceiver(t)
  }

  lemma MatchSuits(o: Hashes, e: Device, r: OfflineRelease, t: Transition, challenge: Digest, ctx: VerifierContext,
                   dsm: DsmVerifier)
    requires Coherent(o, e) && EmitStep(e) == Ok(r) && r.transition == t && r.cert.receiverChallenge == challenge
    requires e.active.record.c.nextAnchorCounter + e.h == e.id.h0
    requires Matches(ctx, dsm, e.id, t, challenge)
    ensures Genuine(o, e.id, r) && Suits(r, ctx, dsm, ChipRead(e.h, true))
    ensures ctx.pinnedAnchorId == e.id.anchorId && ctx.expectedReceiverChallenge == challenge
  {
    hide SoundRecord, Wots.Verify, CertificateFor;
  }

  // ----- the acceptance window -----

  /** A step of the appliance, or a receiver that decides on some release (any
      release, exported or not) with a faithful read at that moment. */
  datatype Event =
    | OfAppliance(s: Step)
    | Receive(rel: OfflineRelease, ctx: VerifierContext, dsm: DsmVerifier, available: bool)

  datatype Joint = Joint(w: World, accepted: seq<OfflineRelease>)

  /** The receiver pinned this appliance, so its chip read is of this chip. */
  predicate Pins(ctx: VerifierContext, id: Identity) {
    ctx.pinnedAnchorId == id.anchorId && ctx.enrolledCounter == id.h0
  }

  predicate Accepts(o: Hashes, d: Device, e: Event) {
    e.Receive? && Pins(e.ctx, d.id) && AcceptOffline(o, e.rel, e.ctx, e.dsm, ChipRead(d.h, e.available)).Ok?
  }

  function JointNext(o: Hashes, j: Joint, e: Event): Joint {
    match e
    case OfAppliance(s) => j.(w := Next(o, j.w, s))
    case Receive(rel, _, _, _) => if Accepts(o, j.w.dev, e) then j.(accepted := j.accepted + [rel]) else j
  }

  function JointRun(o: Hashes, j: Joint, events: seq<Event>): Joint
    decreases |events|
  {
    if |events| == 0 then j else JointRun(o, JointNext(o, j, events[0]), events[1..])
  }

  /** Index `n` is accepted only while the counter stands at `H0 - n`. */
  lemma AcceptedAtLiveIndex(o: Hashes, d: Device, e: Event)
    requires Accepts(o, d, e)
    ensures Index(e.rel) + d.h == d.id.h0
  {
    hide AcceptOffline, Acceptable;
    AcceptedMatchesRead(o, e.rel, e.ctx, e.dsm, ChipRead(d.h, e.available));
  }

  lemma AcceptedMatchesRead(o: Hashes, rel: OfflineRelease, ctx: VerifierContext, dsm: DsmVerifier,
                            counter: CounterVerifier)
    requires AcceptOffline(o, rel, ctx, dsm, counter).Ok?
    ensures var read := counter(ctx.pinnedAnchorId, rel.counter);
            read.Some? && read.value + Index(rel) == ctx.enrolledCounter
  {
    hide AcceptOffline, Wots.Verify, CertificateFor;
    AcceptedIsCanonical(o, rel, ctx, dsm, counter);
  }

  ghost predicate WindowInv(j: Joint) {
    && (forall a :: 0 <= a < |j.accepted| ==> Index(j.accepted[a]) + j.w.dev.h <= j.w.dev.id.h0)
    && (forall a, b :: 0 <= a < b < |j.accepted| ==> Index(j.accepted[a]) <= Index(j.accepted[b]))
  }

  lemma WindowStep(o: Hashes, root: Digest, j: Joint, e: Event)
    requires Inv(o, root, j.w) && WindowInv(j)
    ensures var k := JointNext(o, j, e);
            && Inv(o, root, k.w) && k.w.dev.id == j.w.dev.id && k.w.dev.h <= j.w.dev.h
            && WindowInv(k) && j.accepted <= k.accepted
  {
    hide LedgerInv, ExportInv, OriginInv, Accepts, DeviceStep;
    match e
    case OfAppliance(s) =>
      StepInv(o, root, j.w, s);
      CounterFalls(o, root, j.w, s);
    case Receive(_, _, _, _) =>
      if Accepts(o, j.w.dev, e) { AcceptedAtLiveIndex(o, j.w.dev, e); }
  }

  lemma CounterFalls(o: Hashes, root: Digest, w: World, s: Step)
    requires Inv(o, root, w)
    ensures DeviceStep(o, w.dev, s).h <= w.dev.h
  {
    hide Coherent, DeviceStep, ExportInv, OriginInv;
    StepEffect(o, w.dev, s);
  }

  lemma {:induction false} WindowRun(o: Hashes, root: Digest, j: Joint, events: seq<Event>)
    requires Inv(o, root, j.w) && WindowInv(j)
    ensures var k := JointRun(o, j, events);
            Inv(o, root, k.w) && k.w.dev.id == j.w.dev.id && WindowInv(k) && j.accepted <= k.accepted
    ensures forall a :: |j.accepted| <= a < |JointRun(o, j, events).accepted| ==>
              Index(JointRun(o, j, events).accepted[a]) + j.w.dev.h >= j.w.dev.id.h0
    decreases |events|
  {
    hide Inv, WindowInv, JointNext;
    if |events| > 0 {
      var k := JointNext(o, j, events[0]);
      WindowStep(o, root, j, events[0]);
      WindowRun(o, root, k, events[1..]);
      AcceptedNow(o, j, events[0]);
    }
  }

  lemma AcceptedNow(o: Hashes, j: Joint, e: Event)
    ensures var k := JointNext(o, j, e);
            |k.accepted| <= |j.accepted| + 1
            && (|k.accepted| > |j.accepted| ==> Index(k.accepted[|j.accepted|]) + j.w.dev.h == j.w.dev.id.h0)
  {
    hide Accepts;
    if Accepts(o, j.w.dev, e) { AcceptedAtLiveIndex(o, j.w.dev, e); }
  }

  /** Acceptance window: with one appliance and any number of receivers that read
      its chip, over any run, the accepted indices never go down, and all accepted
      releases of one index that this appliance exported are one release, hence
      agree on the successor root. */
  lemma AcceptancesMoveForward(o: Hashes, id: Identity, h: u32, root: Digest, events: seq<Event>)
    ensures var j := JointRun(o, Joint(Init(id, h, root), []), events);
            && (forall a, b :: 0 <= a < b < |j.accepted| ==> Index(j.accepted[a]) <= Index(j.accepted[b]))
            && (forall a, b | 0 <= a < |j.accepted| && 0 <= b < |j.accepted| ::
                  Index(j.accepted[a]) == Index(j.accepted[b])
                  && j.accepted[a] in j.w.exports && j.accepted[b] in j.w.exports
                  ==> j.accepted[a] == j.accepted[b])
  {
    hide JointRun, LedgerInv, OriginInv, History, Init;
    InitInv(o, id, h, root);
    var j0 := Joint(Init(id, h, root), []);
    WindowRun(o, root, j0, events);
    var j := JointRun(o, j0, events);
    forall a, b | 0 <= a < |j.accepted| && 0 <= b < |j.accepted| && Index(j.accepted[a]) == Index(j.accepted[b])
                  && j.accepted[a] in j.w.exports && j.accepted[b] in j.w.exports
      ensures j.accepted[a] == j.accepted[b]
    {
      OneExportPerIndex(j.w, j.accepted[a], j.accepted[b]);
    }
  }

  lemma OneExportPerIndex(w: World, r: OfflineRelease, s: OfflineRelease)
    requires ExportInv(w) && r in w.exports && s in w.exports && Index(r) == Index(s)
    ensures r == s
  {
    hide History;
  }

  /** Once the counter has moved past `H0 - n`, no release of index `n` is accepted
      any more, by any receiver, whatever it carries. */
  lemma WindowCloses(o: Hashes, id: Identity, h: u32, root: Digest, before: seq<Event>, after: seq<Event>, n: nat)
    requires JointRun(o, Joint(Init(id, h, root), []), before).w.dev.h + n < id.h0
    ensures var j := JointRun(o, Joint(Init(id, h, root), []), before);
            var k := JointRun(o, j, after);
            forall a :: |j.accepted| <= a < |k.accepted| ==> Index(k.accepted[a]) > n
  {
    hide JointRun, LedgerInv, ExportInv, OriginInv, WindowInv, Init;
    InitInv(o, id, h, root);
    var j0 := Joint(Init(id, h, root), []);
    StartWindow(j0);
    assert j0.w.dev.id == id by { InitId(id, h, root); }
    WindowRun(o, root, j0, before);
    WindowRun(o, root, JointRun(o, j0, before), after);
  }

  lemma StartWindow(j: Joint)
    requires j.accepted == []
    ensures WindowInv(j)
  {
  }

  lemma InitId(id: Identity, h: u32, root: Digest)
    ensures Init(id, h, root).dev.id == id
  {
  }

  /** What a receiver accepts under a key this appliance ever derived is the
      honest release of that derivation, at the live index, or breaks the
      signature scheme or the hash. */
  lemma AcceptedUnderHonestKey(o: Hashes, id: Identity, h: u32, root: Digest, steps: seq<Step>, k: nat, e: Event)
    requires k < |Run(o, Init(id, h, root), steps).derivations|
    requires Accepts(o, Run(o, Init(id, h, root), steps).dev, e)
    requires var v := Run(o, Init(id, h, root), steps).derivations[k];
             && e.rel.cert.pkHw == Wots.PublicKey(o, v.K(o))
             && Prefixable(e.rel.transition) && Prefixable(v.t)
    ensures var w := Run(o, Init(id, h, root), steps);
            var v := w.derivations[k];
            var b := Binding(v.t, id.anchorId, id.slot, v.challenge, e.rel.cert.pkHw);
            && |e.rel.cert.sigma| == Wots.SIG_LEN
            && Index(e.rel) + w.dev.h == id.h0
            && (|| (e.rel.transition == v.t && e.rel.cert == CertificateFor(o, b, Wots.Sign(o, v.K(o), b.M(o))))
                || SchemeBroken(o, v.K(o), b, e.rel))
  {
    hide Run, Init, LedgerInv, ExportInv, AcceptOffline, SchemeBroken, CertificateFor, Derivation.K, Wots.PublicKey,
         Wots.Sign;
    Reachable(o, id, h, root, steps);
    var w := Run(o, Init(id, h, root), steps);
    var v := w.derivations[k];
    var b := Binding(v.t, id.anchorId, id.slot, v.challenge, e.rel.cert.pkHw);
    AcceptedAtLiveIndex(o, w.dev, e);
    Unforgeable(o, e.rel, e.ctx, e.dsm, ChipRead(w.dev.h, e.available), v.K(o), b);
  }

  // ----- what was accepted under the key of an export -----

  ghost predicate AllCertified(o: Hashes, rs: seq<OfflineRelease>) {
    forall a :: 0 <= a < |rs| ==> Certified(o, rs[a])
  }

  lemma {:induction false} CertifiedRun(o: Hashes, j: Joint, events: seq<Event>)
    requires AllCertified(o, j.accepted)
    ensures AllCertified(o, JointRun(o, j, events).accepted)
    decreases |events|
  {
    hide Certified, JointNext;
    if |events| > 0 {
      CertifiedStep(o, j, events[0]);
      CertifiedRun(o, JointNext(o, j, events[0]), events[1..]);
    }
  }

  lemma CertifiedStep(o: Hashes, j: Joint, e: Event)
    requires AllCertified(o, j.accepted)
    ensures AllCertified(o, JointNext(o, j, e).accepted)
  {
    hide Certified, AcceptOffline, Next;
    if Accepts(o, j.w.dev, e) {
      AcceptedIsCertified(o, e.rel, e.ctx, e.dsm, ChipRead(j.w.dev.h, e.available));
    }
  }

  /** Everything exported was signed in one of the world's derivations. */
  lemma ExportStems(o: Hashes, w: World, k: nat)
    requires ExportInv(w) && OriginInv(o, w) && k < |w.exports|
    ensures ReleaseStems(o, w.derivations, w.exports[k])
  {
    hide ReleaseStems, DerivedHere, SigningsOrigin;
    assert w.exports[k] in History(w);
  }

  /** `rel` breaks the signature scheme or the hash, against the key under which
      `r` was signed. */
  ghost predicate BreaksKeyOf(o: Hashes, w: World, r: OfflineRelease, rel: OfflineRelease) {
    exists i: nat :: i < |w.derivations| && ReleaseFrom(o, w.derivations[i], r)
      && |rel.cert.sigma| == Wots.SIG_LEN && SchemeBroken(o, w.derivations[i].K(o), BindingOf(r), rel)
  }

  lemma CertifiedUnderKey(o: Hashes, w: World, r: OfflineRelease, rel: OfflineRelease)
    requires ReleaseStems(o, w.derivations, r) && Certified(o, rel) && rel.cert.pkHw == r.cert.pkHw
    requires Prefixable(rel.transition) && Prefixable(r.transition)
    ensures (rel.transition == r.transition && rel.cert == r.cert) || BreaksKeyOf(o, w, r, rel)
  {
    hide Certified, SchemeBroken, Derivation.K, Wots.PublicKey, Wots.Sign, Binding.M, Binding.D, Binding.X, PkHashOf,
         Prefixable;
    var i: nat :| i < |w.derivations| && ReleaseFrom(o, w.derivations[i], r);
    var v := w.derivations[i];
    assert BindingOf(r) == BindingOfDerivation(o, v);
    CertifiedUnforgeable(o, rel, v.K(o), BindingOfDerivation(o, v));
  }

  /** One release per key, in the joint system: in any run of the appliance and its
      receivers, whatever was accepted under the key of an exported release carries
      that release's transition and certificate, or breaks the scheme. */
  lemma AcceptedUnderExportKey(o: Hashes, id: Identity, h: u32, root: Digest, events: seq<Event>, a: nat, k: nat)
    requires var j := JointRun(o, Joint(Init(id, h, root), []), events);
             && a < |j.accepted| && k < |j.w.exports|
             && j.accepted[a].cert.pkHw == j.w.exports[k].cert.pkHw
             && Prefixable(j.accepted[a].transition) && Prefixable(j.w.exports[k].transition)
    ensures var j := JointRun(o, Joint(Init(id, h, root), []), events);
            var rel, r := j.accepted[a], j.w.exports[k];
            (rel.transition == r.transition && rel.cert == r.cert) || BreaksKeyOf(o, j.w, r, rel)
  {
    hide JointRun, LedgerInv, ExportInv, OriginInv, Init, Certified, Prefixable, BreaksKeyOf, ReleaseStems, WindowInv;
    var j0 := Joint(Init(id, h, root), []);
    InitInv(o, id, h, root);
    StartWindow(j0);
    WindowRun(o, root, j0, events);
    CertifiedRun(o, j0, events);
    var j := JointRun(o, j0, events);
    ExportStems(o, j.w, k);
    CertifiedUnderKey(o, j.w, j.w.exports[k], j.accepted[a]);
  }

  /** Hence all acceptances at one index agree, on the successor root and on the
      whole transition, when each is under the key of some export, or one of them
      breaks the scheme. */
  lemma AcceptancesAgree(o: Hashes, id: Identity, h: u32, root: Digest, events: seq<Event>, a: nat, b: nat, k: nat,
                         l: nat)
    requires var j := JointRun(o, Joint(Init(id, h, root), []), events);
             && a < |j.accepted| && b < |j.accepted| && k < |j.w.exports| && l < |j.w.exports|
             && Index(j.accepted[a]) == Index(j.accepted[b])
             && j.accepted[a].cert.pkHw == j.w.exports[k].cert.pkHw
             && j.accepted[b].cert.pkHw == j.w.exports[l].cert.pkHw
             && Prefixable(j.accepted[a].transition) && Prefixable(j.w.exports[k].transition)
             && Prefixable(j.accepted[b].transition) && Prefixable(j.w.exports[l].transition)
    ensures var j := JointRun(o, Joint(Init(id, h, root), []), events);
            || (j.accepted[a].transition == j.accepted[b].transition && j.accepted[a].cert == j.accepted[b].cert)
            || BreaksKeyOf(o, j.w, j.w.exports[k], j.accepted[a])
            || BreaksKeyOf(o, j.w, j.w.exports[l], j.accepted[b])
  {
    hide JointRun, LedgerInv, ExportInv, OriginInv, Init, Prefixable, BreaksKeyOf, WindowInv;
    AcceptedUnderExportKey(o, id, h, root, events, a, k);
    AcceptedUnderExportKey(o, id, h, root, events, b, l);
    var j0 := Joint(Init(id, h, root), []);
    var j := JointRun(o, j0, events);
    InitInv(o, id, h, root);
    StartWindow(j0);
    WindowRun(o, root, j0, events);
    var r, s := j.w.exports[k], j.w.exports[l];
    if j.accepted[a].transition == r.transition && j.accepted[b].transition == s.transition {
      OneExportPerIndex(j.w, r, s);
    }
  }

  // ----- releases that came over the wire -----

  /** A release as a receiver gets it: decoded from some message. */
  ghost predicate Decoded(rel: OfflineRelease) {
    exists m :: Proto.ToRelease(m) == Ok(rel)
  }

  /** The wire bounds keep every field well below the length prefix. */
  lemma DecodedPrefixable(rel: OfflineRelease)
    requires Decoded(rel)
    ensures Prefixable(rel.transition)
  {
    hide Proto.ToRelease;
    var m :| Proto.ToRelease(m) == Ok(rel);
    Proto.DecodesExactlyInBounds(m, rel);
  }

  /** Unforgeability as a receiver of messages has it, with nothing left to check
      about lengths. */
  lemma ReceivedUnforgeable(o: Hashes, m: Proto.ReleaseMessage, ctx: VerifierContext, dsm: DsmVerifier,
                            counter: CounterVerifier, seed: Digest, b: Binding)
    requires Proto.ToRelease(m).Ok? && AcceptOffline(o, Proto.ToRelease(m).value, ctx, dsm, counter).Ok?
    requires Proto.TransitionInBounds(b.t)
    requires Proto.ToRelease(m).value.cert.pkHw == b.pkHw == Wots.PublicKey(o, seed)
    ensures var rel := Proto.ToRelease(m).value;
            && |rel.cert.sigma| == Wots.SIG_LEN
            && (|| (rel.transition == b.t && rel.cert == CertificateFor(o, b, Wots.Sign(o, seed, b.M(o))))
                || SchemeBroken(o, seed, b, rel))
  {
    hide Proto.ToRelease, AcceptOffline, SchemeBroken, CertificateFor, Wots.PublicKey, Wots.Sign;
    DecodedPrefixable(Proto.ToRelease(m).value);
    Unforgeable(o, Proto.ToRelease(m).value, ctx, dsm, counter, seed, b);
  }

  /** Requests reach the appliance, and releases the receivers, over the wire. */
  ghost predicate OverWire(e: Event) {
    match e
    case OfAppliance(s) => Proto.FromWire(s)
    case Receive(rel, _, _, _) => Decoded(rel)
  }

  function StepsOf(events: seq<Event>): seq<Step>
    decreases |events|
  {
    if |events| == 0 then [] else
    (match events[0] case OfAppliance(s) => [s] case Receive(_, _, _, _) => []) + StepsOf(events[1..])
  }

  /** The appliance of a joint run is in a run of its own. */
  lemma {:induction false} JointWorld(o: Hashes, j: Joint, events: seq<Event>)
    ensures JointRun(o, j, events).w == Run(o, j.w, StepsOf(events))
    decreases |events|
  {
    hide Next, Accepts;
    if |events| > 0 {
      JointWorld(o, JointNext(o, j, events[0]), events[1..]);
      match events[0]
      case OfAppliance(s) => assert ([s] + StepsOf(events[1..]))[1..] == StepsOf(events[1..]);
      case Receive(_, _, _, _) => assert [] + StepsOf(events[1..]) == StepsOf(events[1..]);
    }
  }

  lemma {:induction false} StepsOverWire(events: seq<Event>)
    requires forall i :: 0 <= i < |events| ==> OverWire(events[i])
    ensures forall i :: 0 <= i < |StepsOf(events)| ==> Proto.FromWire(StepsOf(events)[i])
    decreases |events|
  {
    hide Proto.FromWire, Decoded;
    if |events| > 0 {
      assert OverWire(events[0]);
      assert forall i :: 0 <= i < |events[1..]| ==> events[1..][i] == events[i + 1];
      StepsOverWire(events[1..]);
    }
  }

  ghost predicate AllDecoded(rs: seq<OfflineRelease>) {
    forall a :: 0 <= a < |rs| ==> Decoded(rs[a])
  }

  lemma {:induction false} DecodedRun(o: Hashes, j: Joint, events: seq<Event>)
    requires AllDecoded(j.accepted) && forall i :: 0 <= i < |events| ==> OverWire(events[i])
    ensures AllDecoded(JointRun(o, j, events).accepted)
    decreases |events|
  {
    hide Decoded, Next, Accepts, Proto.FromWire;
    if |events| > 0 {
      assert OverWire(events[0]);
      assert forall i :: 0 <= i < |events[1..]| ==> events[1..][i] == events[i + 1];
      DecodedRun(o, JointNext(o, j, events[0]), events[1..]);
    }
  }

  lemma ExportDecoded(o: Hashes, id: Identity, h: u32, root: Digest, events: seq<Event>, k: nat)
    requires forall i :: 0 <= i < |events| ==> OverWire(events[i])
    requires k < |JointRun(o, Joint(Init(id, h, root), []), events).w.exports|
    ensures Decoded(JointRun(o, Joint(Init(id, h, root), []), events).w.exports[k])
  {
    hide JointRun, Run, Init, Proto.FromWire, Proto.ToRelease, Proto.ReleaseToPb, OverWire;
    var j := Joint(Init(id, h, root), []);
    JointWorld(o, j, events);
    StepsOverWire(events);
    Proto.ExportsDecode(o, id, h, root, StepsOf(events), k);
    var r := JointRun(o, j, events).w.exports[k];
    assert Proto.ToRelease(Proto.ReleaseToPb(r)) == Ok(r);
  }

  /** Agreement where everything travels over the wire: no condition on lengths. */
  lemma WireAcceptancesAgree(o: Hashes, id: Identity, h: u32, root: Digest, events: seq<Event>, a: nat, b: nat,
                             k: nat, l: nat)
    requires forall i :: 0 <= i < |events| ==> OverWire(events[i])
    requires var j := JointRun(o, Joint(Init(id, h, root), []), events);
             && a < |j.accepted| && b < |j.accepted| && k < |j.w.exports| && l < |j.w.exports|
             && Index(j.accepted[a]) == Index(j.accepted[b])
             && j.accepted[a].cert.pkHw == j.w.exports[k].cert.pkHw
             && j.accepted[b].cert.pkHw == j.w.exports[l].cert.pkHw
    ensures var j := JointRun(o, Joint(Init(id, h, root), []), events);
            || (j.accepted[a].transition == j.accepted[b].transition && j.accepted[a].cert == j.accepted[b].cert)
            || BreaksKeyOf(o, j.w, j.w.exports[k], j.accepted[a])
            || BreaksKeyOf(o, j.w, j.w.exports[l], j.accepted[b])
  {
    hide JointRun, Init, Prefixable, BreaksKeyOf, Decoded, OverWire;
    var j0 := Joint(Init(id, h, root), []);
    var j := JointRun(o, j0, events);
    DecodedRun(o, j0, events);
    DecodedPrefixable(j.accepted[a]);
    DecodedPrefixable(j.accepted[b]);
    ExportDecoded(o, id, h, root, events, k);
    ExportDecoded(o, id, h, root, events, l);
    DecodedPrefixable(j.w.exports[k]);
    DecodedPrefixable(j.w.exports[l]);
    AcceptancesAgree(o, id, h, root, events, a, b, k, l);
  }

  // ----- what acceptance leaves open -----

  /** The release of `t` for appliance `id`, signed with the key of some seed. */
  function ReleaseUnder(o: Hashes, id: Identity, seed: Digest, t: Transition, challenge: Digest): OfflineRelease
    requires t.nextAnchorCounter <= id.h0
  {
    var b := Binding(t, id.anchorId, id.slot, challenge, Wots.PublicKey(o, seed));
    OfflineRelease(t, CertificateFor(o, b, Wots.Sign(o, seed, b.M(o))),
                   CounterEvidence(id.anchorId, id.h0, id.h0 - t.nextAnchorCounter, t.nextAnchorCounter, []))
  }

  /** Acceptance does not say whose key signed: under the key of any seed whatever,
      the release of a transition that matches a receiver is accepted if and only
      if the counter stands at its index. The results on keys the appliance
      derived, or exported under, therefore need that hypothesis. */
  lemma AnyKeyAccepted(o: Hashes, d: Device, seed: Digest, t: Transition, challenge: Digest, ctx: VerifierContext,
                       dsm: DsmVerifier)
    requires Matches(ctx, dsm, d.id, t, challenge) && t.nextAnchorCounter == t.anchorCounter + 1 <= d.id.h0
    ensures AcceptOffline(o, ReleaseUnder(o, d.id, seed, t, challenge), ctx, dsm, ChipRead(d.h, true)).Ok? <==>
            t.nextAnchorCounter + d.h == d.id.h0
  {
    hide AcceptOffline, Wots.PublicKey, Wots.Sign, Wots.Verify, TransitionDigestOf, WitnessInputOf, PkHashOf,
         CertMessageOf;
    var b := Binding(t, d.id.anchorId, d.id.slot, challenge, Wots.PublicKey(o, seed));
    Wots.SignVerifies(o, seed, b.M(o));
    GenuineAccepted(o, d.id, ReleaseUnder(o, d.id, seed, t, challenge), ctx, dsm, ChipRead(d.h, true));
  }
}
