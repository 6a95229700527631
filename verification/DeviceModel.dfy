/** The appliance as a value, and what each of its operations does to it
    (`appliance.rs`, with the chip contract of `tropic.rs`).

    The environment is explicit: each call is given an `Env` that says which chip
    calls fail, what MAC-And-Destroy answers, how far the counter moves out of
    band, and at which durable write, if any, the power is lost. A durable write
    is one assignment to the active state or one counter move; it survives. */
module DeviceModel {
  import opened Util
  import opened Hashing
  import opened RootAdvance
  import Wots
  import Accept

  datatype Status = Ready | Prepared | Committed

  datatype TropicError = Comm | NotArmed | Exhausted

  datatype ApplianceError =
    | WrongState
    | PrevRootMismatch
    | IndexMismatch
    | CounterMismatch
    | WitnessKeyLost
    | CounterExhausted
    | NotCommitted
    | Chip(error: TropicError)

  /** A WOTS witness key, or the empty vector once it is erased. */
  type SecretKey = b: Bytes | |b| == 0 || |b| == 32 witness []

  datatype PreparedRecord = PreparedRecord(
    txn: Transition,
    digest: Digest,
    witnessInput: Digest,
    certMessage: Digest,
    pkHw: Bytes,
    pHw: Digest,
    skHw: SecretKey,
    receiverChallenge: Digest)

  datatype CommittedRecord = CommittedRecord(
    prevRoot: Digest,
    nextRoot: Digest,
    anchorCounter: u64,
    nextAnchorCounter: u64,
    release: OfflineRelease,
    committed: bool)

  datatype Record = NoRecord | PreparedRec(p: PreparedRecord) | CommittedRec(c: CommittedRecord)

  datatype Active = Active(root: Digest, u: u64, status: Status, record: Record)

  datatype RecoverOutcome =
    | Accepted(root: Digest)
    | ReemitCommitted(root: Digest)
    | DowngradeOnline
    | FailClosed
    | ExhaustedOnlineOnly
    | AcceptPreparedCanComplete
    | OnlineCancelOrResolve

  /** What is fixed at enrollment: the counter value `H0`, the anchor, the slot. */
  datatype Identity = Identity(h0: u32, anchorId: Digest, slot: u16)

  /** The appliance together with the chip counter `h`. */
  datatype Device = Device(
    id: Identity,
    h: u32,
    active: Active,
    firmwareBoundaryInvalid: bool,
    rmemoryMapInvalid: bool)

  // ----- the environment of one call -----

  /** The answer to a counter update: it moves and says so, or it reports failure
      having moved the counter or not. */
  datatype Update = Moved | Refused(moved: bool)

  datatype Env = Env(
    read: Option<TropicError>,
    drift: nat,
    reread: Option<TropicError>,
    macd: (u16, Digest) -> Result<Digest, TropicError>,
    update: Update,
    cut: Option<nat>)
  {
    /** Power is lost after `k` durable writes of the call. */
    predicate LostAfter(k: nat) { cut == Some(k) }
  }

  /** What the caller sees of a call; nothing, when power is lost. */
  datatype Reply<+T> = Done(value: T) | Failed(error: ApplianceError) | PowerLost

  function Drop(h: u32, k: nat): u32 { if k <= h then h - k else 0 }

  function CounterGet(h: u32, failure: Option<TropicError>): Result<u32, TropicError> {
    match failure case Some(e) => Err(e) case None => Ok(h)
  }

  /** The counter after an update, and whether the chip reported success. */
  function CounterUpdate(h: u32, update: Update): (u32, bool) {
    if h == 0 then (0, false) else
      match update
      case Moved => (h - 1, true)
      case Refused(moved) => (if moved then h - 1 else h, false)
  }

  // ----- operations -----

  function New(id: Identity, h: u32, root: Digest): Device {
    Device(id, h, Active(root, 0, Ready, NoRecord), false, false)
  }

  function LiveIndex(d: Device, failure: Option<TropicError>): Result<u64, ApplianceError> {
    match CounterGet(d.h, failure)
    case Err(e) => Err(Chip(e))
    case Ok(h) => if h > d.id.h0 then Err(CounterMismatch) else Ok(d.id.h0 - h)
  }

  function RecordOf(o: Hashes, v: Derivation): PreparedRecord {
    var k := v.K(o);
    var pk := Wots.PublicKey(o, k);
    PreparedRecord(v.t, TransitionDigestOf(o, v.t), v.X(o), v.M(o, pk), pk, PkHashOf(o, pk), k, v.challenge)
  }

  /** The checks of a preparation, and the derivation it makes: the chip is asked
      for the witness of the input X, at the appliance's slot. */
  function PrepareCheck(o: Hashes, d: Device, t: Transition, challenge: Digest, env: Env)
    : Result<Derivation, ApplianceError>
  {
    if d.active.status != Ready then Err(WrongState) else
    if d.active.root != t.prevRoot then Err(PrevRootMismatch) else
    if t.anchorCounter != d.active.u then Err(IndexMismatch) else
    if t.nextAnchorCounter != t.anchorCounter + 1 then Err(IndexMismatch) else
    match LiveIndex(d, env.read)
    case Err(e) => Err(e)
    case Ok(live) =>
      if d.active.u != live then Err(CounterMismatch) else
      var x := WitnessInputOf(o, t, TransitionDigestOf(o, t), d.id.anchorId, d.id.slot, challenge);
      match env.macd(d.id.slot, x)
      case Err(e) => Err(Chip(e))
      case Ok(w) => Ok(Derivation(w, t, d.id.anchorId, d.id.slot, challenge))
  }

  /** The questions a preparation puts to the chip: one, once every guard has
      passed, and none before. */
  function Asks(o: Hashes, d: Device, t: Transition, challenge: Digest, env: Env): seq<(u16, Digest)> {
    if && d.active.status == Ready && t.prevRoot == d.active.root
       && t.anchorCounter == d.active.u && t.nextAnchorCounter == t.anchorCounter + 1
       && env.read.None? && d.active.u + d.h == d.id.h0
    then [(d.id.slot, WitnessInputOf(o, t, TransitionDigestOf(o, t), d.id.anchorId, d.id.slot, challenge))]
    else []
  }

  function PrepareStep(o: Hashes, d: Device, t: Transition, challenge: Digest, env: Env): (Device, Reply<()>) {
    match PrepareCheck(o, d, t, challenge, env)
    case Err(e) => (d, Failed(e))
    case Ok(v) =>
      var a := d.active.(status := Prepared);
      if env.LostAfter(0) then (d, PowerLost) else
      if env.LostAfter(1) then (d.(active := a), PowerLost) else
      (d.(active := a.(record := PreparedRec(RecordOf(o, v)))), Done(()))
  }

  /** The checks of a commit, up to the counter read it relies on. */
  function CommitCheck(d: Device, env: Env): Result<PreparedRecord, ApplianceError> {
    match d.active.record
    case PreparedRec(p) =>
      if |p.skHw| == 0 then Err(WitnessKeyLost) else
      if p.txn.prevRoot != d.active.root then Err(PrevRootMismatch) else
      (match CounterGet(d.h, env.read)
       case Err(e) => Err(Chip(e))
       case Ok(h) =>
         if h == 0 then Err(CounterExhausted) else
         if h > d.id.h0 then Err(CounterMismatch) else
         if d.id.h0 - h != p.txn.anchorCounter then Err(CounterMismatch) else
         Ok(p))
    case _ => Err(WrongState)
  }

  function ReleaseOf(o: Hashes, d: Device, p: PreparedRecord): OfflineRelease
    requires |p.skHw| == 32 && d.h > 0
  {
    var t := p.txn;
    var sigma := Wots.Sign(o, p.skHw, p.certMessage);
    var cert := Certificate(t.prevRoot, t.nextRoot, t.anchorCounter, t.nextAnchorCounter, p.digest, p.witnessInput,
                            p.pHw, p.pkHw, sigma, d.id.anchorId, d.id.slot, p.receiverChallenge);
    OfflineRelease(t, cert, CounterEvidence(d.id.anchorId, d.id.h0, d.h - 1, t.nextAnchorCounter, []))
  }

  function Candidate(o: Hashes, d: Device, p: PreparedRecord): CommittedRecord
    requires |p.skHw| == 32 && d.h > 0
  {
    CommittedRecord(p.txn.prevRoot, p.txn.nextRoot, p.txn.anchorCounter, p.txn.nextAnchorCounter, ReleaseOf(o, d, p),
                    false)
  }

  /** The durable writes of a commit whose checks passed, in order: erase the key,
      the status, the candidate; move the counter; the flag, the index. */
  function CommitWrites(d: Device, p: PreparedRecord, c: CommittedRecord, env: Env): (Device, Reply<()>) {
    var a1 := d.active.(record := PreparedRec(p.(skHw := [])));
    var a2 := a1.(status := Committed);
    var a3 := a2.(record := CommittedRec(c));
    var (h4, moved) := CounterUpdate(d.h, env.update);
    var a5 := a3.(record := CommittedRec(c.(committed := true)));
    if env.LostAfter(0) then (d, PowerLost) else
    if env.LostAfter(1) then (d.(active := a1), PowerLost) else
    if env.LostAfter(2) then (d.(active := a2), PowerLost) else
    if env.LostAfter(3) then (d.(active := a3), PowerLost) else
    if env.LostAfter(4) then (d.(active := a3, h := h4), PowerLost) else
    if !moved then (d.(active := a3, h := h4), Failed(CounterExhausted)) else
    if env.LostAfter(5) then (d.(active := a5, h := h4), PowerLost) else
    (d.(active := a5.(u := c.nextAnchorCounter), h := h4), Done(()))
  }

  function CommitStep(o: Hashes, d: Device, env: Env): (Device, Reply<()>) {
    match CommitCheck(d, env)
    case Err(e) => (d, Failed(e))
    case Ok(p) => CommitWrites(d.(h := Drop(d.h, env.drift)), p, Candidate(o, d, p), env)
  }

  function EmitStep(d: Device): Result<OfflineRelease, ApplianceError> {
    match d.active.record
    case CommittedRec(c) => if c.committed then Ok(c.release) else Err(NotCommitted)
    case _ => Err(NotCommitted)
  }

  function FinalizeStep(d: Device, env: Env): (Device, Reply<Digest>) {
    match d.active.record
    case CommittedRec(c) =>
      if !c.committed then (d, Failed(NotCommitted)) else
      (match LiveIndex(d, env.read)
       case Err(e) => (d, Failed(e))
       case Ok(live) =>
         if d.active.u != live then (d, Failed(CounterMismatch)) else
         if env.LostAfter(0) then (d, PowerLost) else
         (d.(active := Active(c.nextRoot, d.active.u, Ready, NoRecord)), Done(c.nextRoot)))
    case _ => (d, Failed(NotCommitted))
  }

  function CancelStep(d: Device, env: Env): (Device, Reply<()>) {
    match d.active.record
    case PreparedRec(p) =>
      var a1 := d.active.(record := PreparedRec(p.(skHw := [])));
      var a2 := a1.(status := Ready);
      if env.LostAfter(0) then (d, PowerLost) else
      if env.LostAfter(1) then (d.(active := a1), PowerLost) else
      if env.LostAfter(2) then (d.(active := a2), PowerLost) else
      (d.(active := a2.(record := NoRecord)), Done(()))
    case _ => (d, Failed(WrongState))
  }

  /** The committed flag and then the index, as both counter-moved branches of
      recovery write them, after `n` earlier writes. */
  function MarkCommitted(d: Device, c: CommittedRecord, n: nat, env: Env): (Device, Reply<RecoverOutcome>) {
    var a1 := d.active.(record := CommittedRec(c.(committed := true)));
    if env.LostAfter(n) then (d, PowerLost) else
    if env.LostAfter(n + 1) then (d.(active := a1), PowerLost) else
    (d.(active := a1.(u := c.nextAnchorCounter)), Done(ReemitCommitted(c.nextRoot)))
  }

  function RecoverCommitted(d: Device, c: CommittedRecord, live: u64, env: Env): (Device, Reply<RecoverOutcome>) {
    if c.committed then
      if c.nextAnchorCounter != live then (d, Done(DowngradeOnline)) else
      if env.LostAfter(0) then (d, PowerLost) else
      (d.(active := d.active.(u := c.nextAnchorCounter)), Done(ReemitCommitted(c.nextRoot)))
    else if c.nextAnchorCounter == live + 1 then
      if c.prevRoot != d.active.root then (d, Done(DowngradeOnline)) else
      if env.LostAfter(0) then (d, PowerLost) else
      var (h, moved) := CounterUpdate(d.h, env.update);
      if moved then MarkCommitted(d.(h := h), c, 1, env) else
      if env.LostAfter(1) then (d.(h := h), PowerLost) else
      (d.(h := h), Done(DowngradeOnline))
    else if c.nextAnchorCounter == live then MarkCommitted(d, c, 0, env)
    else (d, Done(DowngradeOnline))
  }

  function RecoverPrepared(d: Device, live: u64): RecoverOutcome {
    if d.active.u != live then DowngradeOnline else
    match d.active.record
    case PreparedRec(p) =>
      if p.txn.prevRoot != d.active.root then DowngradeOnline else
      if |p.skHw| > 0 then AcceptPreparedCanComplete else OnlineCancelOrResolve
    case _ => DowngradeOnline
  }

  /** `live` was read before the counter drifted to its present value. */
  function RecoverReady(d: Device, live: u64, env: Env): RecoverOutcome {
    if d.active.u < live then DowngradeOnline else
    if d.active.u > live then FailClosed else
    match CounterGet(d.h, env.reread)
    case Err(_) => DowngradeOnline
    case Ok(h) => if h == 0 then ExhaustedOnlineOnly else Accepted(d.active.root)
  }

  function RecoverStep(d: Device, env: Env): (Device, Reply<RecoverOutcome>) {
    if d.firmwareBoundaryInvalid || d.rmemoryMapInvalid then (d, Done(DowngradeOnline)) else
    match LiveIndex(d, env.read)
    case Err(_) => (d, Done(DowngradeOnline))
    case Ok(live) =>
      var d0 := d.(h := Drop(d.h, env.drift));
      match d.active.status
      case Committed =>
        (match d.active.record
         case CommittedRec(c) => RecoverCommitted(d0, c, live, env)
         case _ => (d0, Done(DowngradeOnline)))
      case Prepared => (d0, Done(RecoverPrepared(d0, live)))
      case Ready => (d0, Done(RecoverReady(d0, live, env)))
  }

  // ----- what every operation keeps -----

  /** The number of releases this device has counted through: the index its next
      release starts from. */
  function Base(a: Active): u64 {
    match a.record case CommittedRec(c) => c.anchorCounter case _ => a.u
  }

  function BindingFor(id: Identity, p: PreparedRecord): Binding {
    Binding(p.txn, id.anchorId, id.slot, p.receiverChallenge, p.pkHw)
  }

  /** A prepared record holds what `RecordOf` put there, up to erasing the key. */
  predicate SoundRecord(o: Hashes, id: Identity, p: PreparedRecord) {
    var b := BindingFor(id, p);
    && p.digest == b.D(o) && p.witnessInput == b.X(o) && p.pHw == PkHashOf(o, p.pkHw) && p.certMessage == b.M(o)
    && |p.pkHw| == 32
    && (|p.skHw| > 0 ==> p.pkHw == Wots.PublicKey(o, p.skHw))
  }

  /** A release carries the one certificate for its transition on this appliance,
      a verifying signature, and the appliance's own counter claims. */
  predicate Genuine(o: Hashes, id: Identity, r: OfflineRelease) {
    var b := Binding(r.transition, id.anchorId, id.slot, r.cert.receiverChallenge, r.cert.pkHw);
    && r.cert == Accept.CertificateFor(o, b, r.cert.sigma)
    && Wots.Verify(o, b.pkHw, b.M(o), r.cert.sigma)
    && r.transition.nextAnchorCounter == r.transition.anchorCounter + 1 <= id.h0
    && r.counter == CounterEvidence(id.anchorId, id.h0, id.h0 - r.transition.nextAnchorCounter,
                                    r.transition.nextAnchorCounter, [])
  }

  /** The record belongs to the active root and index, and a secret key lives only
      in a record that may still be committed. */
  predicate CoherentRecord(o: Hashes, d: Device) {
    var a := d.active;
    match a.record
    case NoRecord => a.status != Committed
    case PreparedRec(p) =>
      && SoundRecord(o, d.id, p)
      && p.txn.prevRoot == a.root && p.txn.anchorCounter == a.u && p.txn.nextAnchorCounter == a.u + 1
      && (|p.skHw| > 0 ==> a.status == Prepared)
    case CommittedRec(c) =>
      var t := c.release.transition;
      && a.status == Committed
      && Genuine(o, d.id, c.release)
      && c.prevRoot == t.prevRoot == a.root && c.nextRoot == t.nextRoot
      && c.anchorCounter == t.anchorCounter && c.nextAnchorCounter == t.nextAnchorCounter
      && (a.u == c.anchorCounter || (c.committed && a.u == c.nextAnchorCounter))
      && (c.committed ==> c.nextAnchorCounter + d.h <= d.id.h0)
  }

  /** Reachable-state invariant. The index never runs ahead of the counter:
      `u <= H0 - H` (`u` is 0 while the chip reports more than `H0`), hence every
      sum of the source fits its 64-bit type. */
  predicate Coherent(o: Hashes, d: Device) {
    && CoherentRecord(o, d)
    && (Base(d.active) == 0 || Base(d.active) + d.h <= d.id.h0)
    && (d.active.u == 0 || d.active.u + d.h <= d.id.h0)
  }

  lemma GenuineIndices(o: Hashes, id: Identity, r: OfflineRelease)
    requires Genuine(o, id, r)
    ensures r.transition.nextAnchorCounter == r.transition.anchorCounter + 1 <= id.h0
  {
    hide Wots.Verify, Accept.CertificateFor;
  }

  lemma NewCoherent(o: Hashes, id: Identity, h: u32, root: Digest)
    ensures Coherent(o, New(id, h, root))
  {
  }

  lemma DropKeepsCoherent(o: Hashes, d: Device, k: nat)
    requires Coherent(o, d)
    ensures Coherent(o, d.(h := Drop(d.h, k)))
  {
  }

  lemma RecordSound(o: Hashes, id: Identity, v: Derivation)
    requires v.anchorId == id.anchorId && v.slot == id.slot
    ensures SoundRecord(o, id, RecordOf(o, v))
  {
    hide Wots.PublicKey, TransitionDigestOf, WitnessInputOf, PkHashOf, CertMessageOf, WitnessKeyMaterial;
  }

  lemma ErasedSound(o: Hashes, id: Identity, p: PreparedRecord)
    requires SoundRecord(o, id, p)
    ensures SoundRecord(o, id, p.(skHw := []))
  {
    hide Wots.PublicKey, TransitionDigestOf, WitnessInputOf, PkHashOf, CertMessageOf;
  }

  lemma PrepareKeepsCoherent(o: Hashes, d: Device, t: Transition, challenge: Digest, env: Env)
    requires Coherent(o, d)
    ensures Coherent(o, PrepareStep(o, d, t, challenge, env).0)
  {
    hide SoundRecord, Genuine, RecordOf;
    match PrepareCheck(o, d, t, challenge, env)
    case Err(_) =>
    case Ok(v) =>
      RecordSound(o, d.id, v);
      assert RecordOf(o, v).txn == t by { RecordTxn(o, v); }
  }

  lemma RecordTxn(o: Hashes, v: Derivation)
    ensures RecordOf(o, v).txn == v.t && |RecordOf(o, v).skHw| == 32 && RecordOf(o, v).receiverChallenge == v.challenge
  {
  }

  /** A sound record with its key commits to a genuine release. */
  lemma CandidateGenuine(o: Hashes, d: Device, p: PreparedRecord)
    requires SoundRecord(o, d.id, p) && |p.skHw| == 32
    requires 0 < d.h <= d.id.h0 && p.txn.anchorCounter == d.id.h0 - d.h
    requires p.txn.nextAnchorCounter == p.txn.anchorCounter + 1
    ensures Genuine(o, d.id, ReleaseOf(o, d, p))
    ensures ReleaseOf(o, d, p).transition == p.txn
  {
    hide Wots.Sign, Wots.Verify, Wots.PublicKey, TransitionDigestOf, WitnessInputOf, PkHashOf, CertMessageOf;
    Wots.SignVerifies(o, p.skHw, p.certMessage);
  }

  lemma CommitKeepsCoherent(o: Hashes, d: Device, env: Env)
    requires Coherent(o, d)
    ensures Coherent(o, CommitStep(o, d, env).0)
  {
    hide SoundRecord, Genuine, ReleaseOf, CommitWrites;
    match CommitCheck(d, env)
    case Err(_) =>
    case Ok(p) =>
      CandidateGenuine(o, d, p);
      ErasedSound(o, d.id, p);
      CommitWritesCoherent(o, d.(h := Drop(d.h, env.drift)), p, Candidate(o, d, p), env);
  }

  /** `c` is the unrecorded candidate of the prepared transition `t`. */
  predicate CandidateOf(c: CommittedRecord, t: Transition) {
    && c.release.transition == t && c.prevRoot == t.prevRoot && c.nextRoot == t.nextRoot
    && c.anchorCounter == t.anchorCounter && c.nextAnchorCounter == t.nextAnchorCounter && !c.committed
  }

  lemma CommitWritesCoherent(o: Hashes, d: Device, p: PreparedRecord, c: CommittedRecord, env: Env)
    requires Coherent(o, d) && d.active.record == PreparedRec(p) && SoundRecord(o, d.id, p.(skHw := []))
    requires Genuine(o, d.id, c.release) && p.txn.anchorCounter + d.h <= d.id.h0 && CandidateOf(c, p.txn)
    ensures Coherent(o, CommitWrites(d, p, c, env).0)
  {
    hide Coherent, Genuine, SoundRecord;
    ErasedCoherent(o, d, p);
    CountedCoherent(o, d, c, d.h);
    CountedCoherent(o, d, c, CounterUpdate(d.h, env.update).0);
  }

  lemma ErasedCoherent(o: Hashes, d: Device, p: PreparedRecord)
    requires Coherent(o, d) && d.active.record == PreparedRec(p) && SoundRecord(o, d.id, p.(skHw := []))
    ensures var a := d.active.(record := PreparedRec(p.(skHw := [])));
            Coherent(o, d.(active := a)) && Coherent(o, d.(active := a.(status := Committed)))
  {
    hide SoundRecord, Genuine;
  }

  lemma CountedCoherent(o: Hashes, d: Device, c: CommittedRecord, h: u32)
    requires Coherent(o, d) && d.active.record.PreparedRec? && CandidateOf(c, d.active.record.p.txn)
    requires Genuine(o, d.id, c.release) && d.active.record.p.txn.anchorCounter + d.h <= d.id.h0 && h <= d.h
    ensures var a := d.active.(status := Committed, record := CommittedRec(c));
            var b := a.(record := CommittedRec(c.(committed := true)));
            && Coherent(o, d.(h := h, active := a))
            && (h < d.h ==> Coherent(o, d.(h := h, active := b))
                            && Coherent(o, d.(h := h, active := b.(u := c.nextAnchorCounter))))
  {
    hide SoundRecord, Genuine;
  }

  lemma FinalizeKeepsCoherent(o: Hashes, d: Device, env: Env)
    requires Coherent(o, d)
    ensures Coherent(o, FinalizeStep(d, env).0)
  {
    hide SoundRecord, Genuine;
  }

  lemma CancelKeepsCoherent(o: Hashes, d: Device, env: Env)
    requires Coherent(o, d)
    ensures Coherent(o, CancelStep(d, env).0)
  {
    hide SoundRecord, Genuine;
    if d.active.record.PreparedRec? { ErasedSound(o, d.id, d.active.record.p); }
  }

  lemma RecoverKeepsCoherent(o: Hashes, d: Device, env: Env)
    requires Coherent(o, d)
    ensures Coherent(o, RecoverStep(d, env).0)
  {
    hide SoundRecord, Genuine;
    DropKeepsCoherent(o, d, env.drift);
  }

  // ----- calls that nothing interferes with -----

  /** No chip failure, no outside move, no power loss. */
  ghost predicate FaultFree(env: Env) {
    && env.read.None? && env.drift == 0 && env.reread.None? && env.update.Moved? && env.cut.None?
    && forall q: u16, x: Digest :: env.macd(q, x).Ok?
  }

  lemma FaultFreePrepare(o: Hashes, d: Device, t: Transition, challenge: Digest, env: Env)
    requires FaultFree(env) && d.active.status == Ready && d.active.u + d.h == d.id.h0
    requires t.prevRoot == d.active.root && t.anchorCounter == d.active.u && t.nextAnchorCounter == t.anchorCounter + 1
    ensures PrepareCheck(o, d, t, challenge, env).Ok?
    ensures var p := RecordOf(o, PrepareCheck(o, d, t, challenge, env).value);
            && PrepareStep(o, d, t, challenge, env)
               == (d.(active := Active(d.active.root, d.active.u, Prepared, PreparedRec(p))), Done(()))
            && p.txn == t && |p.skHw| == 32 && p.receiverChallenge == challenge
  {
    RecordTxn(o, PrepareCheck(o, d, t, challenge, env).value);
    hide TransitionDigestOf, WitnessInputOf, PkHashOf, CertMessageOf, WitnessKeyMaterial, Wots.PublicKey;
  }

  lemma FaultFreeCommit(o: Hashes, d: Device, env: Env)
    requires FaultFree(env) && d.active.record.PreparedRec? && |d.active.record.p.skHw| == 32
    requires d.h > 0 && d.active.record.p.txn.prevRoot == d.active.root
    requires d.active.record.p.txn.anchorCounter + d.h == d.id.h0
    ensures var c := Candidate(o, d, d.active.record.p);
            CommitStep(o, d, env) ==
              (d.(h := d.h - 1, active := Active(d.active.root, c.nextAnchorCounter, Committed,
                                                 CommittedRec(c.(committed := true)))), Done(()))
  {
    hide Candidate;
  }
}
