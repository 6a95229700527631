/** Whole runs of one appliance: any sequence of calls, each under any
    environment, with counter moves out of band and invalidity flags set in
    between. The world keeps a history beside the device. */
module Protocol {
  import opened Util
  import opened Hashing
  import opened RootAdvance
  import opened DeviceModel
  import Accept
  import Wots

  datatype Step =
    | Prepare(t: Transition, challenge: Digest, env: Env)
    | Commit(env: Env)
    | Emit
    | Finalize(env: Env)
    | Cancel(env: Env)
    | Recover(env: Env)
    | OutOfBand
    | SetFlags(firmware: bool, rmemory: bool)

  /** One use of a witness key: the seed and the message signed under it. */
  datatype Signing = Signing(seed: Digest, message: Digest)

  /** `ledger`: the releases finalized, in order. `exports`: what `emit` returned,
      in order, repetitions included. `skipped`: the indices finalized without
      ever having been exported. `derivations` and `signings`: every use of the
      chip's witness output and of a witness key, stored afterwards or not. */
  datatype World = World(
    dev: Device,
    ledger: seq<OfflineRelease>,
    exports: seq<OfflineRelease>,
    skipped: set<nat>,
    derivations: seq<Derivation>,
    signings: seq<Signing>)

  function Init(id: Identity, h: u32, root: Digest): World {
    World(New(id, h, root), [], [], {}, [], [])
  }

  function DeviceStep(o: Hashes, d: Device, s: Step): Device {
    match s
    case Prepare(t, challenge, env) => PrepareStep(o, d, t, challenge, env).0
    case Commit(env) => CommitStep(o, d, env).0
    case Emit => d
    case Finalize(env) => FinalizeStep(d, env).0
    case Cancel(env) => CancelStep(d, env).0
    case Recover(env) => RecoverStep(d, env).0
    case OutOfBand => d.(h := Drop(d.h, 1))
    case SetFlags(f, r) => d.(firmwareBoundaryInvalid := f, rmemoryMapInvalid := r)
  }

  /** The release whose counter move is recorded, if one is pending. */
  function Pending(d: Device): Option<OfflineRelease> {
    match EmitStep(d) case Ok(r) => Some(r) case Err(_) => None
  }

  predicate Finalizes(d: Device, s: Step) {
    s.Finalize? && FinalizeStep(d, s.env).1.Done?
  }

  function Next(o: Hashes, w: World, s: Step): World {
    var d := w.dev;
    World(
      DeviceStep(o, d, s),
      if Finalizes(d, s) then w.ledger + [d.active.record.c.release] else w.ledger,
      if s.Emit? && Pending(d).Some? then w.exports + [Pending(d).value] else w.exports,
      if Finalizes(d, s) && d.active.record.c.release !in w.exports then w.skipped + {|w.ledger| + 1} else w.skipped,
      (match s
       case Prepare(t, challenge, env) =>
         (match PrepareCheck(o, d, t, challenge, env)
          case Ok(v) => w.derivations + [v]
          case Err(_) => w.derivations)
       case _ => w.derivations),
      (match s
       case Commit(env) =>
         (match CommitCheck(d, env)
          case Ok(p) => w.signings + [Signing(p.skHw, p.certMessage)]
          case Err(_) => w.signings)
       case _ => w.signings))
  }

  function Run(o: Hashes, w: World, steps: seq<Step>): World
    decreases |steps|
  {
    if |steps| == 0 then w else Run(o, Next(o, w, steps[0]), steps[1..])
  }

  // ----- the effect of one step on the device -----

  /** Every step keeps the device coherent. */
  lemma StepCoherent(o: Hashes, d: Device, s: Step)
    requires Coherent(o, d)
    ensures Coherent(o, DeviceStep(o, d, s))
  {
    hide SoundRecord, Genuine, PrepareStep, CommitStep, FinalizeStep, CancelStep, RecoverStep;
    match s
    case Prepare(t, challenge, env) => PrepareKeepsCoherent(o, d, t, challenge, env);
    case Commit(env) => CommitKeepsCoherent(o, d, env);
    case Emit =>
    case Finalize(env) => FinalizeKeepsCoherent(o, d, env);
    case Cancel(env) => CancelKeepsCoherent(o, d, env);
    case Recover(env) => RecoverKeepsCoherent(o, d, env);
    case OutOfBand => DropKeepsCoherent(o, d, 1);
    case SetFlags(_, _) =>
  }

  /** Finalizing installs the pending release; nothing else touches the root, the
      base index or a pending release. */
  ghost predicate Effect(d: Device, s: Step, e: Device) {
    && e.id == d.id && e.h <= d.h
    && if Finalizes(d, s) then
         && Pending(d).Some? && Pending(e).None?
         && e.active.root == d.active.record.c.nextRoot && Base(e.active) == Base(d.active) + 1
       else
         && e.active.root == d.active.root && Base(e.active) == Base(d.active)
         && (Pending(d).Some? ==> Pending(e) == Pending(d))
  }

  lemma StepEffect(o: Hashes, d: Device, s: Step)
    requires Coherent(o, d)
    ensures Effect(d, s, DeviceStep(o, d, s))
  {
    hide Coherent, PrepareStep, CommitStep, FinalizeStep, CancelStep, RecoverStep, EmitStep, Effect;
    match s
    case Prepare(t, challenge, env) => PrepareEffect(o, d, t, challenge, env);
    case Commit(env) => CommitEffect(o, d, env);
    case Emit => StillEffect(d, s, d);
    case Finalize(env) => FinalizeEffect(o, d, env);
    case Cancel(env) => CancelEffect(d, env);
    case Recover(env) => RecoverEffect(o, d, env);
    case OutOfBand => StillEffect(d, s, DeviceStep(o, d, s));
    case SetFlags(_, _) => StillEffect(d, s, DeviceStep(o, d, s));
  }

  lemma StillEffect(d: Device, s: Step, e: Device)
    requires !s.Finalize? && e.id == d.id && e.h <= d.h && e.active == d.active
    ensures Effect(d, s, e)
  {
  }

  lemma PrepareEffect(o: Hashes, d: Device, t: Transition, challenge: Digest, env: Env)
    requires Coherent(o, d)
    ensures Effect(d, Prepare(t, challenge, env), PrepareStep(o, d, t, challenge, env).0)
  {
    hide SoundRecord, Genuine, RecordOf;
  }

  lemma CommitEffect(o: Hashes, d: Device, env: Env)
    requires Coherent(o, d)
    ensures Effect(d, Commit(env), CommitStep(o, d, env).0)
  {
    hide SoundRecord, Genuine, ReleaseOf, CommitWrites, Effect;
    match CommitCheck(d, env)
    case Err(_) => StillEffect(d, Commit(env), d);
    case Ok(p) => CommitWritesEffect(d.(h := Drop(d.h, env.drift)), p, Candidate(o, d, p), env, d);
  }

  lemma CommitWritesEffect(e: Device, p: PreparedRecord, c: CommittedRecord, env: Env, d: Device)
    requires e.id == d.id && e.h <= d.h && e.active == d.active && d.active.record == PreparedRec(p)
    requires c.anchorCounter == d.active.u
    ensures Effect(d, Commit(env), CommitWrites(e, p, c, env).0)
  {
  }

  lemma FinalizeEffect(o: Hashes, d: Device, env: Env)
    requires Coherent(o, d)
    ensures Effect(d, Finalize(env), FinalizeStep(d, env).0)
  {
    hide SoundRecord, Genuine;
    if d.active.record.CommittedRec? { GenuineIndices(o, d.id, d.active.record.c.release); }
  }

  lemma CancelEffect(d: Device, env: Env)
    ensures Effect(d, Cancel(env), CancelStep(d, env).0)
  {
  }

  lemma RecoverEffect(o: Hashes, d: Device, env: Env)
    requires Coherent(o, d)
    ensures Effect(d, Recover(env), RecoverStep(d, env).0)
  {
    hide SoundRecord, Genuine;
  }

  // ----- linear history -----

  /** The root before the `i`-th release of a history that starts at `root`. */
  function RootBefore(root: Digest, s: seq<OfflineRelease>, i: nat): Digest
    requires i <= |s|
  {
    if i == 0 then root else s[i - 1].transition.nextRoot
  }

  /** The releases carry the indices 1, 2, 3, ... and each starts from the root the
      one before it ends in. */
  ghost predicate Linked(root: Digest, s: seq<OfflineRelease>) {
    forall i :: 0 <= i < |s| ==>
      && s[i].transition.anchorCounter == i && s[i].transition.nextAnchorCounter == i + 1
      && s[i].transition.prevRoot == RootBefore(root, s, i)
  }

  /** All releases that count: the finalized ones and the pending one. */
  function History(w: World): seq<OfflineRelease> {
    w.ledger + match Pending(w.dev) case Some(r) => [r] case None => []
  }

  function Index(r: OfflineRelease): nat { r.transition.nextAnchorCounter }

  ghost predicate LedgerInv(o: Hashes, root: Digest, w: World) {
    && Coherent(o, w.dev)
    && |w.ledger| == Base(w.dev.active)
    && Linked(root, w.ledger)
    && w.dev.active.root == RootBefore(root, w.ledger, |w.ledger|)
    && AllGenuine(o, w.dev.id, w.ledger)
  }

  /** Every export is the release of its index in the history, and the indices
      never go down. */
  ghost predicate ExportsFrom(hist: seq<OfflineRelease>, exports: seq<OfflineRelease>) {
    && (forall k :: 0 <= k < |exports| ==>
          1 <= Index(exports[k]) <= |hist| && exports[k] == hist[Index(exports[k]) - 1])
    && (forall j, k :: 0 <= j < k < |exports| ==> Index(exports[j]) <= Index(exports[k]))
  }

  /** `skipped` is the set of finalized indices that were never exported. */
  ghost predicate Skips(ledger: seq<OfflineRelease>, exports: seq<OfflineRelease>, skipped: set<nat>) {
    forall n :: n in skipped <==> 1 <= n <= |ledger| && ledger[n - 1] !in exports
  }

  ghost predicate ExportInv(w: World) {
    ExportsFrom(History(w), w.exports) && Skips(w.ledger, w.exports, w.skipped)
  }

  /** The pending release starts from the active root and base index. */
  lemma PendingRelease(o: Hashes, d: Device)
    requires Coherent(o, d) && Pending(d).Some?
    ensures var r := Pending(d).value;
            && Genuine(o, d.id, r) && r.transition.prevRoot == d.active.root
            && r.transition.anchorCounter == Base(d.active) && r.transition.nextAnchorCounter == Base(d.active) + 1
  {
    hide SoundRecord, Genuine;
    GenuineIndices(o, d.id, Pending(d).value);
  }

  lemma LinkedSnoc(root: Digest, s: seq<OfflineRelease>, r: OfflineRelease)
    requires Linked(root, s) && r.transition.prevRoot == RootBefore(root, s, |s|)
    requires r.transition.anchorCounter == |s| && r.transition.nextAnchorCounter == |s| + 1
    ensures Linked(root, s + [r])
  {
    assert forall i :: 0 <= i <= |s| ==> RootBefore(root, s + [r], i) == RootBefore(root, s, i);
  }

  ghost predicate AllGenuine(o: Hashes, id: Identity, s: seq<OfflineRelease>) {
    forall i :: 0 <= i < |s| ==> Genuine(o, id, s[i])
  }

  lemma AllGenuineSnoc(o: Hashes, id: Identity, s: seq<OfflineRelease>, r: OfflineRelease)
    requires AllGenuine(o, id, s) && Genuine(o, id, r)
    ensures AllGenuine(o, id, s + [r])
  {
    hide Genuine;
  }

  lemma PendingFollows(o: Hashes, root: Digest, w: World)
    requires LedgerInv(o, root, w)
    ensures Linked(root, History(w)) && AllGenuine(o, w.dev.id, History(w))
  {
    hide Coherent, Genuine, Linked, AllGenuine, RootBefore, Pending, Base;
    if Pending(w.dev).Some? {
      var r := Pending(w.dev).value;
      PendingRelease(o, w.dev);
      LinkedSnoc(root, w.ledger, r);
      AllGenuineSnoc(o, w.dev.id, w.ledger, r);
    } else {
      assert History(w) == w.ledger;
    }
  }

  lemma LedgerStep(o: Hashes, root: Digest, w: World, s: Step)
    requires LedgerInv(o, root, w)
    ensures LedgerInv(o, root, Next(o, w, s))
    ensures History(w) <= History(Next(o, w, s))
  {
    hide SoundRecord, Coherent, DeviceStep, Genuine;
    StepCoherent(o, w.dev, s);
    StepEffect(o, w.dev, s);
    PendingFollows(o, root, w);
    if Finalizes(w.dev, s) {
      assert Next(o, w, s).ledger == History(w);
      CommittedNextRoot(o, w.dev);
    }
  }

  lemma CommittedNextRoot(o: Hashes, d: Device)
    requires Coherent(o, d) && d.active.record.CommittedRec?
    ensures d.active.record.c.nextRoot == d.active.record.c.release.transition.nextRoot
  {
  }

  lemma ExportStep(o: Hashes, root: Digest, w: World, s: Step)
    requires LedgerInv(o, root, w) && ExportInv(w)
    ensures ExportInv(Next(o, w, s))
  {
    hide SoundRecord, Coherent, PrepareStep, CommitStep, FinalizeStep, CancelStep, RecoverStep, Genuine, ExportInv,
         Linked;
    LedgerStep(o, root, w, s);
    StepEffect(o, w.dev, s);
    PendingFollows(o, root, w);
    var v := Next(o, w, s);
    if s.Emit? && Pending(w.dev).Some? {
      EmitKeepsExports(root, w, v, Pending(w.dev).value);
    } else if Finalizes(w.dev, s) {
      FinalizeKeepsExports(w, v, Pending(w.dev).value);
    } else {
      OtherKeepsExports(w, v);
    }
  }

  lemma OtherKeepsExports(w: World, v: World)
    requires ExportInv(w) && History(w) <= History(v)
    requires v.ledger == w.ledger && v.exports == w.exports && v.skipped == w.skipped
    ensures ExportInv(v)
  {
    hide History;
  }

  lemma FinalizeKeepsExports(w: World, v: World, r: OfflineRelease)
    requires ExportInv(w)
    requires Pending(w.dev) == Some(r) && Pending(v.dev).None? && v.ledger == w.ledger + [r]
    requires v.exports == w.exports
    requires v.skipped == if r !in w.exports then w.skipped + {|w.ledger| + 1} else w.skipped
    ensures ExportInv(v)
  {
    assert History(v) == v.ledger == History(w);
    FinalizedSkip(w.ledger, w.exports, w.skipped, r);
  }

  lemma FinalizedSkip(ledger: seq<OfflineRelease>, exports: seq<OfflineRelease>, skipped: set<nat>, r: OfflineRelease)
    requires Skips(ledger, exports, skipped)
    ensures Skips(ledger + [r], exports, if r !in exports then skipped + {|ledger| + 1} else skipped)
  {
    assert forall i :: 0 <= i < |ledger| ==> (ledger + [r])[i] == ledger[i];
  }

  lemma EmitKeepsExports(root: Digest, w: World, v: World, r: OfflineRelease)
    requires ExportInv(w) && Linked(root, History(w))
    requires v.dev == w.dev && v.ledger == w.ledger && v.skipped == w.skipped && v.exports == w.exports + [r]
    requires Pending(w.dev) == Some(r)
    ensures ExportInv(v)
  {
    var n := |w.ledger| + 1;
    assert History(v) == History(w) == w.ledger + [r];
    assert History(w)[n - 1] == r && Index(r) == n;
    ExportLast(History(w), w.exports, r);
    forall i | 0 <= i < |w.ledger|
      ensures w.ledger[i] != r
    {
      assert History(w)[i] == w.ledger[i] && Index(w.ledger[i]) == i + 1;
    }
    NewExportSkipsNothing(w.ledger, w.exports, w.skipped, r);
  }

  lemma ExportLast(hist: seq<OfflineRelease>, exports: seq<OfflineRelease>, r: OfflineRelease)
    requires ExportsFrom(hist, exports)
    requires Index(r) == |hist| > 0 && hist[|hist| - 1] == r
    ensures ExportsFrom(hist, exports + [r])
  {
  }

  lemma NewExportSkipsNothing(ledger: seq<OfflineRelease>, exports: seq<OfflineRelease>, skipped: set<nat>,
                              r: OfflineRelease)
    requires Skips(ledger, exports, skipped)
    requires forall i :: 0 <= i < |ledger| ==> ledger[i] != r
    ensures Skips(ledger, exports + [r], skipped)
  {
  }

  // ----- witness keys -----

  /** What a derivation signs, if it signs: its message under its public key. */
  function SigningOf(o: Hashes, v: Derivation): Signing {
    Signing(v.K(o), v.M(o, Wots.PublicKey(o, v.K(o))))
  }

  /** The binding a derivation's certificate is for, under the key it yields. */
  function BindingOfDerivation(o: Hashes, v: Derivation): Binding {
    Binding(v.t, v.anchorId, v.slot, v.challenge, Wots.PublicKey(o, v.K(o)))
  }

  /** `r` is the one honest release of derivation `v`: its transition, and the
      certificate signed under its key. */
  ghost predicate ReleaseFrom(o: Hashes, v: Derivation, r: OfflineRelease) {
    var b := BindingOfDerivation(o, v);
    r.transition == v.t && r.cert == Accept.CertificateFor(o, b, Wots.Sign(o, v.K(o), b.M(o)))
  }

  ghost predicate RecordStems(o: Hashes, ds: seq<Derivation>, p: PreparedRecord) {
    exists i: nat :: i < |ds| && p == RecordOf(o, ds[i])
  }

  ghost predicate SigningStems(o: Hashes, ds: seq<Derivation>, s: Signing) {
    exists i: nat :: i < |ds| && s == SigningOf(o, ds[i])
  }

  ghost predicate ReleaseStems(o: Hashes, ds: seq<Derivation>, r: OfflineRelease) {
    exists i: nat :: i < |ds| && ReleaseFrom(o, ds[i], r)
  }

  /** What the record holds comes from a recorded derivation: a live secret key,
      and the release of a candidate. */
  ghost predicate RecordOrigin(o: Hashes, ds: seq<Derivation>, r: Record) {
    match r
    case NoRecord => true
    case PreparedRec(p) => |p.skHw| > 0 ==> RecordStems(o, ds, p)
    case CommittedRec(c) => ReleaseStems(o, ds, c.release)
  }

  predicate DerivedHere(id: Identity, ds: seq<Derivation>) {
    forall i :: 0 <= i < |ds| ==> ds[i].anchorId == id.anchorId && ds[i].slot == id.slot
  }

  ghost predicate SigningsOrigin(o: Hashes, ds: seq<Derivation>, ss: seq<Signing>) {
    forall j :: 0 <= j < |ss| ==> SigningStems(o, ds, ss[j])
  }

  ghost predicate LedgerOrigin(o: Hashes, ds: seq<Derivation>, rs: seq<OfflineRelease>) {
    forall j :: 0 <= j < |rs| ==> ReleaseStems(o, ds, rs[j])
  }

  /** Every live key, signature and release of the world comes from one of its
      derivations. */
  ghost predicate OriginInv(o: Hashes, w: World) {
    && DerivedHere(w.dev.id, w.derivations)
    && RecordOrigin(o, w.derivations, w.dev.active.record)
    && SigningsOrigin(o, w.derivations, w.signings)
    && LedgerOrigin(o, w.derivations, w.ledger)
  }

  lemma RecordSigns(o: Hashes, v: Derivation)
    ensures RecordOf(o, v).skHw == SigningOf(o, v).seed && RecordOf(o, v).certMessage == SigningOf(o, v).message
  {
  }

  /** The record of a derivation commits to the derivation's release. */
  lemma RecordReleases(o: Hashes, d: Device, v: Derivation)
    requires d.h > 0 && v.anchorId == d.id.anchorId && v.slot == d.id.slot
    requires |RecordOf(o, v).skHw| == 32
    ensures ReleaseFrom(o, v, ReleaseOf(o, d, RecordOf(o, v)))
  {
    hide Wots.Sign, Wots.PublicKey, TransitionDigestOf, WitnessInputOf, PkHashOf, CertMessageOf, WitnessKeyMaterial;
  }

  lemma StemsGrow(o: Hashes, ds: seq<Derivation>, es: seq<Derivation>, r: Record, ss: seq<Signing>,
                  rs: seq<OfflineRelease>)
    requires ds <= es
    ensures RecordOrigin(o, ds, r) ==> RecordOrigin(o, es, r)
    ensures SigningsOrigin(o, ds, ss) ==> SigningsOrigin(o, es, ss)
    ensures LedgerOrigin(o, ds, rs) ==> LedgerOrigin(o, es, rs)
  {
    hide RecordOf, SigningOf, ReleaseFrom;
    assert forall i: nat :: i < |ds| ==> es[i] == ds[i];
  }

  /** What a step may leave in the record: less than before, the record of a new
      derivation, or the candidate of the record before. */
  lemma RecordOriginStep(o: Hashes, w: World, s: Step)
    requires OriginInv(o, w)
    ensures var v := Next(o, w, s);
            RecordOrigin(o, w.derivations, v.dev.active.record)
            || (|v.derivations| == |w.derivations| + 1
                && v.dev.active.record == PreparedRec(RecordOf(o, v.derivations[|w.derivations|])))
  {
    hide RecordOf, ReleaseOf, SigningsOrigin, LedgerOrigin, RecordStems, ReleaseStems;
    if s.Commit? && CommitCheck(w.dev, s.env).Ok? {
      var p := CommitCheck(w.dev, s.env).value;
      hide DerivedHere;
      CandidateStems(o, w.dev, w.derivations, p);
    }
  }

  lemma CandidateStems(o: Hashes, d: Device, ds: seq<Derivation>, p: PreparedRecord)
    requires d.h > 0 && DerivedHere(d.id, ds) && |p.skHw| == 32 && RecordStems(o, ds, p)
    ensures ReleaseStems(o, ds, Candidate(o, d, p).release)
  {
    hide RecordOf, ReleaseOf, ReleaseFrom;
    var i: nat :| i < |ds| && p == RecordOf(o, ds[i]);
    RecordReleases(o, d, ds[i]);
  }

  lemma SigningOriginStep(o: Hashes, w: World, env: Env)
    requires OriginInv(o, w) && CommitCheck(w.dev, env).Ok?
    ensures var p := CommitCheck(w.dev, env).value; SigningStems(o, w.derivations, Signing(p.skHw, p.certMessage))
  {
    hide RecordOf, SigningOf, SigningsOrigin, LedgerOrigin, DerivedHere;
    var p := CommitCheck(w.dev, env).value;
    var i: nat :| i < |w.derivations| && p == RecordOf(o, w.derivations[i]);
    RecordSigns(o, w.derivations[i]);
  }

  lemma OriginStep(o: Hashes, w: World, s: Step)
    requires OriginInv(o, w)
    ensures OriginInv(o, Next(o, w, s))
  {
    hide RecordOf, SigningOf, ReleaseFrom, DeviceStep, RecordOrigin, SigningStems, ReleaseStems;
    var v := Next(o, w, s);
    IdFixed(o, w.dev, s);
    RecordOriginStep(o, w, s);
    assert w.derivations <= v.derivations;
    StemsGrow(o, w.derivations, v.derivations, w.dev.active.record, w.signings, w.ledger);
    StemsGrow(o, w.derivations, v.derivations, v.dev.active.record, w.signings, w.ledger);
    if |v.derivations| == |w.derivations| + 1
       && v.dev.active.record == PreparedRec(RecordOf(o, v.derivations[|w.derivations|])) {
      NewRecordStems(o, v.derivations, v.dev.active.record.p);
    }
    if s.Commit? && CommitCheck(w.dev, s.env).Ok? {
      SigningOriginStep(o, w, s.env);
      assert v.derivations == w.derivations;
    }
    if Finalizes(w.dev, s) { PendingStems(o, w); }
  }

  lemma NewRecordStems(o: Hashes, ds: seq<Derivation>, p: PreparedRecord)
    requires |ds| > 0 && p == RecordOf(o, ds[|ds| - 1])
    ensures RecordOrigin(o, ds, PreparedRec(p))
  {
    hide RecordOf;
  }

  lemma PendingStems(o: Hashes, w: World)
    requires OriginInv(o, w) && w.dev.active.record.CommittedRec?
    ensures ReleaseStems(o, w.derivations, w.dev.active.record.c.release)
  {
    hide ReleaseStems;
  }

  lemma IdFixed(o: Hashes, d: Device, s: Step)
    ensures DeviceStep(o, d, s).id == d.id
  {
    hide RecordOf, ReleaseOf;
  }

  // ----- every reachable world -----

  ghost predicate Inv(o: Hashes, root: Digest, w: World) {
    LedgerInv(o, root, w) && ExportInv(w) && OriginInv(o, w)
  }

  lemma InitInv(o: Hashes, id: Identity, h: u32, root: Digest)
    ensures Inv(o, root, Init(id, h, root))
  {
  }

  lemma {:induction false} RunInv(o: Hashes, root: Digest, w: World, steps: seq<Step>)
    requires Inv(o, root, w)
    ensures Inv(o, root, Run(o, w, steps)) && Run(o, w, steps).dev.id == w.dev.id
    ensures History(w) <= History(Run(o, w, steps))
    decreases |steps|
  {
    hide LedgerInv, ExportInv, OriginInv, Next;
    if |steps| > 0 {
      var v := Next(o, w, steps[0]);
      StepInv(o, root, w, steps[0]);
      RunInv(o, root, v, steps[1..]);
    }
  }

  lemma StepInv(o: Hashes, root: Digest, w: World, s: Step)
    requires Inv(o, root, w)
    ensures Inv(o, root, Next(o, w, s)) && Next(o, w, s).dev.id == w.dev.id
    ensures History(w) <= History(Next(o, w, s))
  {
    hide LedgerInv, ExportInv, OriginInv, History, DeviceStep;
    LedgerStep(o, root, w, s);
    ExportStep(o, root, w, s);
    OriginStep(o, w, s);
    IdFixed(o, w.dev, s);
  }
}
