/** Lockout, the exactly-once counter move, and what recovery can and cannot do. */
module Recovery {
  import opened Util
  import opened Hashing
  import opened RootAdvance
  import opened DeviceModel
  import opened Protocol

  /** The device after a sequence of steps, without the history. */
  function DeviceRun(o: Hashes, d: Device, steps: seq<Step>): Device
    decreases |steps|
  {
    if |steps| == 0 then d else DeviceRun(o, DeviceStep(o, d, steps[0]), steps[1..])
  }

  lemma {:induction false} DeviceOfRun(o: Hashes, w: World, steps: seq<Step>)
    ensures Run(o, w, steps).dev == DeviceRun(o, w.dev, steps)
    decreases |steps|
  {
    hide DeviceStep;
    if |steps| > 0 { DeviceOfRun(o, Next(o, w, steps[0]), steps[1..]); }
  }

  // ----- lockout -----

  /** The counter has passed the active index and no candidate is stored. */
  predicate Stranded(d: Device) {
    !d.active.record.CommittedRec? && d.active.u + d.h < d.id.h0
  }

  lemma StrandedStep(o: Hashes, d: Device, s: Step)
    requires Coherent(o, d) && Stranded(d)
    ensures var e := DeviceStep(o, d, s);
            Stranded(e) && e.active.root == d.active.root && e.active.u == d.active.u
    ensures Pending(d).None? && !Finalizes(d, s)
    ensures s.Prepare? ==> PrepareCheck(o, d, s.t, s.challenge, s.env).Err?
    ensures s.Commit? ==> CommitCheck(d, s.env).Err?
  {
    hide SoundRecord, Genuine, RecordOf, ReleaseOf, TransitionDigestOf, WitnessInputOf;
  }

  /** Lockout is absorbing. Once the counter has passed the index of an appliance
      with no stored candidate (in particular one that is Ready), no later call,
      crash or recovery derives a key, signs, finalizes, exports, or changes the
      root or the index. */
  lemma {:induction false} LockoutIsAbsorbing(o: Hashes, w: World, steps: seq<Step>)
    requires Coherent(o, w.dev) && Stranded(w.dev)
    ensures var v := Run(o, w, steps);
            && Stranded(v.dev) && v.dev.active.root == w.dev.active.root && v.dev.active.u == w.dev.active.u
            && v.ledger == w.ledger && v.exports == w.exports && v.derivations == w.derivations
            && v.signings == w.signings
    decreases |steps|
  {
    hide Coherent, DeviceStep, PrepareCheck, CommitCheck, FinalizeStep;
    if |steps| > 0 {
      StrandedStep(o, w.dev, steps[0]);
      StepCoherent(o, w.dev, steps[0]);
      LockoutIsAbsorbing(o, Next(o, w, steps[0]), steps[1..]);
    }
  }

  /** A Ready appliance that is reachable and behind its counter is locked out. */
  lemma ReadyBehindIsStranded(o: Hashes, d: Device)
    requires Coherent(o, d) && d.active.status == Ready && d.h <= d.id.h0 && d.active.u < d.id.h0 - d.h
    ensures Stranded(d)
  {
    hide SoundRecord, Genuine;
  }

  // ----- exactly-once counter moves -----

  /** A step in which nobody but the appliance moves the counter. */
  predicate Quiet(s: Step) {
    match s
    case OutOfBand => false
    case Prepare(_, _, env) => env.drift == 0
    case Commit(env) => env.drift == 0
    case Finalize(env) => env.drift == 0
    case Cancel(env) => env.drift == 0
    case Recover(env) => env.drift == 0
    case Emit => true
    case SetFlags(_, _) => true
  }

  /** The counter has moved once for each release counted through, and once more
      if and only if a candidate's move is recorded; while a candidate's move is
      not recorded it may or may not have happened. */
  predicate Aligned(d: Device) {
    && d.h <= d.id.h0
    && var live, n := d.id.h0 - d.h, Base(d.active);
       match d.active.record
       case CommittedRec(c) => if c.committed then live == n + 1 else n <= live <= n + 1
       case _ => live == n
  }

  lemma AlignedStep(o: Hashes, d: Device, s: Step)
    requires Coherent(o, d) && Aligned(d) && Quiet(s)
    ensures Aligned(DeviceStep(o, d, s))
  {
    hide Coherent, Aligned, PrepareStep, CommitStep, FinalizeStep, CancelStep, RecoverStep;
    match s
    case Prepare(t, challenge, env) => AlignedPrepare(o, d, t, challenge, env);
    case Commit(env) => AlignedCommit(o, d, env);
    case Emit =>
    case Finalize(env) => AlignedFinalize(o, d, env);
    case Cancel(env) => AlignedCancel(o, d, env);
    case Recover(env) => AlignedRecover(o, d, env);
    case SetFlags(f, r) => AlignedFlags(d, f, r);
  }

  lemma AlignedFlags(d: Device, firmware: bool, rmemory: bool)
    requires Aligned(d)
    ensures Aligned(d.(firmwareBoundaryInvalid := firmware, rmemoryMapInvalid := rmemory))
  {
  }

  lemma AlignedPrepare(o: Hashes, d: Device, t: Transition, challenge: Digest, env: Env)
    requires Coherent(o, d) && Aligned(d)
    ensures Aligned(PrepareStep(o, d, t, challenge, env).0)
  {
    hide SoundRecord, Genuine, RecordOf, TransitionDigestOf, WitnessInputOf;
  }

  lemma AlignedFinalize(o: Hashes, d: Device, env: Env)
    requires Coherent(o, d) && Aligned(d)
    ensures Aligned(FinalizeStep(d, env).0)
  {
    hide SoundRecord, Genuine;
    if d.active.record.CommittedRec? { GenuineIndices(o, d.id, d.active.record.c.release); }
  }

  lemma AlignedCancel(o: Hashes, d: Device, env: Env)
    requires Coherent(o, d) && Aligned(d)
    ensures Aligned(CancelStep(d, env).0)
  {
    hide SoundRecord, Genuine;
  }

  lemma AlignedCommit(o: Hashes, d: Device, env: Env)
    requires Coherent(o, d) && Aligned(d) && env.drift == 0
    ensures Aligned(CommitStep(o, d, env).0)
  {
    hide SoundRecord, Genuine, ReleaseOf;
  }

  lemma AlignedRecover(o: Hashes, d: Device, env: Env)
    requires Coherent(o, d) && Aligned(d) && env.drift == 0
    ensures Aligned(RecoverStep(d, env).0)
  {
    hide SoundRecord, Genuine;
    if d.active.record.CommittedRec? { GenuineIndices(o, d.id, d.active.record.c.release); }
  }

  lemma {:induction false} AlignedRun(o: Hashes, d: Device, steps: seq<Step>)
    requires Coherent(o, d) && Aligned(d)
    requires forall i :: 0 <= i < |steps| ==> Quiet(steps[i])
    ensures Coherent(o, DeviceRun(o, d, steps)) && Aligned(DeviceRun(o, d, steps))
    decreases |steps|
  {
    hide DeviceStep, Coherent, Aligned, Quiet;
    if |steps| > 0 {
      StepCoherent(o, d, steps[0]);
      AlignedStep(o, d, steps[0]);
      assert forall i :: 0 <= i < |steps[1..]| ==> steps[1..][i] == steps[i + 1];
      AlignedRun(o, DeviceStep(o, d, steps[0]), steps[1..]);
    }
  }

  lemma AlignedMoves(o: Hashes, root: Digest, w: World)
    requires LedgerInv(o, root, w) && Aligned(w.dev)
    ensures var moves := w.dev.id.h0 - w.dev.h;
            || moves == |History(w)|
            || (moves == |History(w)| + 1 && w.dev.active.record.CommittedRec? && !w.dev.active.record.c.committed)
  {
    hide Coherent, Linked, AllGenuine;
  }

  /** Conservation: in a run without outside moves, power losses and failing
      updates included, the counter has moved exactly once per release of the
      history; only a stored candidate whose move is unrecorded may be ahead. */
  lemma MovesMatchReleases(o: Hashes, id: Identity, root: Digest, steps: seq<Step>)
    requires forall i :: 0 <= i < |steps| ==> Quiet(steps[i])
    ensures var w := Run(o, Init(id, id.h0, root), steps);
            var moves := id.h0 - w.dev.h;
            || moves == |History(w)|
            || (moves == |History(w)| + 1 && w.dev.active.record.CommittedRec? && !w.dev.active.record.c.committed)
  {
    hide Coherent, Run, DeviceRun, LedgerInv, ExportInv, OriginInv, History, Quiet;
    var w := Init(id, id.h0, root);
    InitInv(o, id, id.h0, root);
    NewCoherent(o, id, id.h0, root);
    RunInv(o, root, w, steps);
    DeviceOfRun(o, w, steps);
    AlignedRun(o, w.dev, steps);
    AlignedMoves(o, root, Run(o, w, steps));
  }

  /** The transfer `t` is prepared, or its candidate is stored. */
  predicate InFlight(d: Device, t: Transition) {
    && d.active.status != Ready
    && match d.active.record
       case PreparedRec(p) => p.txn == t
       case CommittedRec(c) => c.release.transition == t
       case NoRecord => false
  }

  /** Neither given up nor finalized: any other call, in any environment. */
  predicate Undisturbed(s: Step) { !s.Cancel? && !s.Finalize? }

  /** Nothing but cancelling or finalizing ends a transfer; in particular another
      `prepare` never replaces it. */
  lemma InFlightStep(o: Hashes, d: Device, s: Step, t: Transition)
    requires Coherent(o, d) && InFlight(d, t) && Undisturbed(s)
    ensures InFlight(DeviceStep(o, d, s), t)
  {
    hide SoundRecord, Genuine, RecordOf;
    match s
    case Commit(env) => InFlightCommit(o, d, env, t);
    case _ =>
  }

  lemma InFlightCommit(o: Hashes, d: Device, env: Env, t: Transition)
    requires Coherent(o, d) && InFlight(d, t)
    ensures InFlight(CommitStep(o, d, env).0, t)
  {
    hide SoundRecord, Genuine;
  }

  lemma {:induction false} InFlightRun(o: Hashes, d: Device, steps: seq<Step>, t: Transition)
    requires Coherent(o, d) && Aligned(d) && InFlight(d, t)
    requires forall i :: 0 <= i < |steps| ==> Undisturbed(steps[i]) && Quiet(steps[i])
    ensures var e := DeviceRun(o, d, steps);
            Coherent(o, e) && Aligned(e) && InFlight(e, t) && e.id == d.id && e.active.root == d.active.root
    decreases |steps|
  {
    hide DeviceStep, Coherent, Aligned, InFlight, Quiet, Undisturbed;
    if |steps| > 0 {
      var e := DeviceStep(o, d, steps[0]);
      StepCoherent(o, d, steps[0]);
      AlignedStep(o, d, steps[0]);
      InFlightStep(o, d, steps[0], t);
      StepEffect(o, d, steps[0]);
      assert !Finalizes(d, steps[0]) by { UndisturbedNeverFinalizes(d, steps[0]); }
      assert forall i :: 0 <= i < |steps[1..]| ==> steps[1..][i] == steps[i + 1];
      InFlightRun(o, e, steps[1..], t);
    }
  }

  lemma UndisturbedNeverFinalizes(d: Device, s: Step)
    requires Undisturbed(s)
    ensures !Finalizes(d, s)
  {
  }

  /** Exactly-once counter move. From a prepared transfer `t` at index `n`, under
      any sequence of calls other than giving up or finalizing, with power losses
      and failing chip calls, the live index stays in {n, n+1}. Once recovery reports
      a committed successor, the index is n+1, the successor is `t`'s, and a
      fault-free finalize installs it. */
  lemma CounterMovesOnce(o: Hashes, d: Device, t: Transition, steps: seq<Step>, env: Env, last: Env)
    requires Coherent(o, d) && Aligned(d)
    requires d.active.status == Prepared && d.active.record.PreparedRec? && d.active.record.p.txn == t
    requires forall i :: 0 <= i < |steps| ==> Undisturbed(steps[i]) && Quiet(steps[i])
    requires env.drift == 0 && FaultFree(last)
    ensures var e := DeviceRun(o, d, steps);
            var (f, reply) := RecoverStep(e, env);
            && d.id.h0 - e.h in {t.anchorCounter, t.anchorCounter + 1}
            && (reply.Done? && reply.value.ReemitCommitted? ==>
                  && reply.value.root == t.nextRoot
                  && f.h + t.nextAnchorCounter == d.id.h0
                  && FinalizeStep(f, last) == (f.(active := Active(t.nextRoot, t.nextAnchorCounter, Ready, NoRecord)),
                                               Done(t.nextRoot)))
  {
    hide SoundRecord, Genuine, DeviceStep;
    InFlightRun(o, d, steps, t);
    var e := DeviceRun(o, d, steps);
    StepsKeepIndex(o, e, t);
    RecoverKeepsCoherent(o, e, env);
    AlignedRecover(o, e, env);
  }

  lemma StepsKeepIndex(o: Hashes, d: Device, t: Transition)
    requires Coherent(o, d) && InFlight(d, t)
    ensures t.anchorCounter == Base(d.active) && t.nextAnchorCounter == t.anchorCounter + 1
  {
    hide SoundRecord, Genuine;
    if d.active.record.CommittedRec? { GenuineIndices(o, d.id, d.active.record.c.release); }
  }

  // ----- recovery -----

  /** A second fault-free recovery repeats the outcome and changes nothing, from
      any state whatsoever. */
  lemma RecoverIdempotent(d: Device, env: Env, again: Env)
    requires FaultFree(env) && FaultFree(again)
    ensures var (e, reply) := RecoverStep(d, env); RecoverStep(e, again) == (e, reply)
  {
  }

  /** Giving up a preparation undoes it exactly. */
  lemma CancelUndoesPrepare(o: Hashes, d: Device, t: Transition, challenge: Digest, prep: Env, env: Env)
    requires d.active.record.NoRecord? && FaultFree(env)
    ensures var (e, reply) := PrepareStep(o, d, t, challenge, prep);
            reply.Done? ==> CancelStep(e, env) == (d, Done(()))
  {
    hide RecordOf;
  }

  /** `t` starts from the active root and index. */
  predicate Follows(d: Device, t: Transition) {
    t.prevRoot == d.active.root && t.anchorCounter == d.active.u && t.nextAnchorCounter == t.anchorCounter + 1
  }

  // The next four hold of every state, reachable or not.

  /** A fault-free `prepare` succeeds exactly on a Ready appliance at the live index,
      for a transition from its root and index. */
  lemma PreparesExactly(o: Hashes, d: Device, t: Transition, challenge: Digest, env: Env)
    requires FaultFree(env)
    ensures PrepareStep(o, d, t, challenge, env).1.Done? <==>
            d.active.status == Ready && Follows(d, t) && d.active.u + d.h == d.id.h0
  {
  }

  /** A fault-free `commit` succeeds exactly with the key present, the parent still
      active, and the counter movable and at the transfer's parent index; it then
      moves the counter by one, keeps the root, and leaves a release of that very
      transition to emit. */
  lemma CommitsExactly(o: Hashes, d: Device, env: Env)
    requires FaultFree(env)
    ensures var (e, reply) := CommitStep(o, d, env);
            && (reply.Done? <==>
                  && d.active.record.PreparedRec? && |d.active.record.p.skHw| > 0
                  && d.active.record.p.txn.prevRoot == d.active.root
                  && d.h > 0 && d.active.record.p.txn.anchorCounter + d.h == d.id.h0)
            && (reply.Done? ==>
                  && e.h == d.h - 1 && e.active.root == d.active.root
                  && e.active.u == d.active.record.p.txn.nextAnchorCounter
                  && Pending(e).Some? && Pending(e).value.transition == d.active.record.p.txn)
            && (!reply.Done? ==> e == d)
  {
  }

  /** Recovery spends a counter move exactly on a stored candidate one ahead of the
      live index whose parent is still the active root, within a valid boundary. */
  lemma RecoveryMovesCounterExactly(d: Device, env: Env)
    requires FaultFree(env)
    ensures RecoverStep(d, env).0.h != d.h <==>
            && !d.firmwareBoundaryInvalid && !d.rmemoryMapInvalid
            && d.active.status == Committed && d.active.record.CommittedRec? && !d.active.record.c.committed
            && 0 < d.h <= d.id.h0 && d.active.record.c.nextAnchorCounter == d.id.h0 - d.h + 1
            && d.active.record.c.prevRoot == d.active.root
  {
  }

  /** A reported successor can be acted on: `emit` returns the stored release and
      `finalize` installs the reported root. */
  lemma ReemitIsActionable(d: Device, env: Env)
    requires FaultFree(env) && RecoverStep(d, env).1.Done? && RecoverStep(d, env).1.value.ReemitCommitted?
    ensures var (e, reply) := RecoverStep(d, env);
            && d.active.record.CommittedRec? && EmitStep(e) == Ok(d.active.record.c.release)
            && FinalizeStep(e, env).1 == Done(reply.value.root)
            && FinalizeStep(e, env).0.active.root == reply.value.root
  {
  }

  /** Recovery accepts a Ready appliance exactly when its boundary is valid and a
      fitting transfer can be prepared and committed. */
  lemma ReadyVerdict(o: Hashes, d: Device, t: Transition, challenge: Digest, env: Env)
    requires d.active.status == Ready && Follows(d, t) && FaultFree(env)
    ensures RecoverStep(d, env).1 == Done(Accepted(d.active.root)) <==>
            && !d.firmwareBoundaryInvalid && !d.rmemoryMapInvalid
            && PrepareStep(o, d, t, challenge, env).1.Done?
            && CommitStep(o, PrepareStep(o, d, t, challenge, env).0, env).1.Done?
  {
    hide RecordOf, Candidate;
    if d.active.u + d.h == d.id.h0 { FaultFreePrepare(o, d, t, challenge, env); }
  }

  /** It reports exhaustion exactly when, within a valid boundary, a fitting transfer
      can be prepared but meets an exhausted counter. */
  lemma ExhaustedVerdict(o: Hashes, d: Device, t: Transition, challenge: Digest, env: Env)
    requires d.active.status == Ready && Follows(d, t) && FaultFree(env)
    ensures RecoverStep(d, env).1 == Done(ExhaustedOnlineOnly) <==>
            && !d.firmwareBoundaryInvalid && !d.rmemoryMapInvalid
            && PrepareStep(o, d, t, challenge, env).1.Done?
            && CommitStep(o, PrepareStep(o, d, t, challenge, env).0, env).1 == Failed(CounterExhausted)
  {
    hide RecordOf, Candidate;
    if d.active.u + d.h == d.id.h0 { FaultFreePrepare(o, d, t, challenge, env); }
  }

  /** Recovery's promise that a prepared transfer can complete is made exactly within
      a valid boundary, with the key present and the counter at the index; `commit`
      keeps it if and only if the counter is not exhausted: recovery does not look. */
  lemma PreparedVerdict(o: Hashes, d: Device, env: Env)
    requires Coherent(o, d) && d.active.status == Prepared && FaultFree(env)
    ensures var promised := RecoverStep(d, env).1 == Done(AcceptPreparedCanComplete);
            && (promised <==>
                  && !d.firmwareBoundaryInvalid && !d.rmemoryMapInvalid
                  && d.active.record.PreparedRec? && |d.active.record.p.skHw| > 0 && d.active.u + d.h == d.id.h0)
            && (promised ==> (CommitStep(o, d, env).1.Done? <==> d.h > 0))
            && (promised && d.h == 0 ==> CommitStep(o, d, env) == (d, Failed(CounterExhausted)))
            && (d.h > 0 ==>
                  (promised <==>
                     !d.firmwareBoundaryInvalid && !d.rmemoryMapInvalid && CommitStep(o, d, env).1.Done?))
  {
    hide SoundRecord, Genuine, Candidate;
  }

  /** It says that a prepared transfer must be resolved online exactly within a valid
      boundary at the live index, when `commit` finds the key gone and `cancel`
      settles the appliance. */
  lemma KeyLostVerdict(o: Hashes, d: Device, env: Env)
    requires Coherent(o, d) && d.active.status == Prepared && FaultFree(env)
    ensures RecoverStep(d, env).1 == Done(OnlineCancelOrResolve) <==>
            && !d.firmwareBoundaryInvalid && !d.rmemoryMapInvalid
            && CommitStep(o, d, env).1 == Failed(WitnessKeyLost) && Settled(CancelStep(d, env).0)
  {
    hide SoundRecord, Genuine, Candidate;
  }

  /** It reports a successor exactly when, within a valid boundary, `finalize` then
      installs that very root. */
  lemma CommittedVerdict(o: Hashes, d: Device, env: Env, r: Digest)
    requires Coherent(o, d) && FaultFree(env)
    ensures var (e, reply) := RecoverStep(d, env);
            reply == Done(ReemitCommitted(r)) <==>
            !d.firmwareBoundaryInvalid && !d.rmemoryMapInvalid && FinalizeStep(e, env).1 == Done(r)
  {
    hide SoundRecord, Genuine;
    if d.active.record.CommittedRec? { GenuineIndices(o, d.id, d.active.record.c.release); }
  }

  /** The one state with no way out: a preparation cut between its two writes on an
      appliance that held no record. */
  predicate TornPrepare(d: Device) {
    d.active.status == Prepared && d.active.record.NoRecord?
  }

  lemma {:induction false} TornPrepareIsStuck(o: Hashes, d: Device, steps: seq<Step>)
    requires TornPrepare(d)
    ensures TornPrepare(DeviceRun(o, d, steps))
    decreases |steps|
  {
    if |steps| > 0 { TornPrepareIsStuck(o, DeviceStep(o, d, steps[0]), steps[1..]); }
  }

  /** Which calls tear, exactly: a `prepare` that passed its checks on an appliance
      without a record, and lost power after its first write. */
  lemma TearsExactly(o: Hashes, d: Device, s: Step)
    ensures TornPrepare(DeviceStep(o, d, s)) && !TornPrepare(d) <==>
            && s.Prepare? && PrepareCheck(o, d, s.t, s.challenge, s.env).Ok? && s.env.LostAfter(1)
            && d.active.record.NoRecord?
  {
    hide RecordOf, ReleaseOf;
  }

  /** The first preparation of a new appliance, cut between its writes, gets there;
      nothing that follows prepares, commits or settles. */
  lemma TornPrepareReached(o: Hashes, id: Identity, t: Transition, challenge: Digest, w: Digest, more: seq<Step>)
    requires t.anchorCounter == 0 && t.nextAnchorCounter == 1
    ensures var cut := Prepare(t, challenge, Env(None, 0, None, (_, _) => Ok(w), Moved, Some(1)));
            var d := DeviceRun(o, New(id, id.h0, t.prevRoot), [cut] + more);
            TornPrepare(d) && !Settled(d) && Pending(d).None?
  {
    var d0 := New(id, id.h0, t.prevRoot);
    var cut := Prepare(t, challenge, Env(None, 0, None, (_, _) => Ok(w), Moved, Some(1)));
    assert ([cut] + more)[1..] == more;
    TearsExactly(o, d0, cut);
    TornPrepareIsStuck(o, DeviceStep(o, d0, cut), more);
  }

  predicate Settled(d: Device) {
    d.active.status == Ready && d.active.u + d.h == d.id.h0
  }

  /** The way forward: give up a prepared record; recover and finalize a stored
      candidate. */
  function WayForward(d: Device, env: Env): (steps: seq<Step>)
    ensures |steps| <= 2
  {
    if d.active.status == Ready then [] else
    match d.active.record
    case NoRecord => []
    case PreparedRec(_) => [Cancel(env)]
    case CommittedRec(_) => [Recover(env), Finalize(env)]
  }

  lemma CandidateSettles(o: Hashes, d: Device, env: Env)
    requires Coherent(o, d) && Aligned(d) && d.active.record.CommittedRec? && FaultFree(env)
    requires !d.firmwareBoundaryInvalid && !d.rmemoryMapInvalid
    ensures Settled(FinalizeStep(RecoverStep(d, env).0, env).0)
  {
    hide SoundRecord, Genuine;
    GenuineIndices(o, d.id, d.active.record.c.release);
  }

  lemma CancelSettles(d: Device, env: Env)
    requires Aligned(d) && d.active.record.PreparedRec? && FaultFree(env)
    ensures Settled(CancelStep(d, env).0)
  {
  }

  lemma DeviceRunTwo(o: Hashes, d: Device, a: Step, b: Step)
    ensures DeviceRun(o, d, [a, b]) == DeviceStep(o, DeviceStep(o, d, a), b)
  {
    hide DeviceStep;
    assert [a, b][1..] == [b] && [b][1..] == [];
    assert DeviceRun(o, d, [a, b]) == DeviceRun(o, DeviceStep(o, d, a), [b]);
  }

  lemma DeviceRunOne(o: Hashes, d: Device, a: Step)
    ensures DeviceRun(o, d, [a]) == DeviceStep(o, d, a)
  {
    hide DeviceStep;
    assert [a][1..] == [];
  }

  lemma WayForwardSettles(o: Hashes, d: Device, env: Env)
    requires Coherent(o, d) && Aligned(d) && !TornPrepare(d) && FaultFree(env)
    requires !d.firmwareBoundaryInvalid && !d.rmemoryMapInvalid
    ensures Settled(DeviceRun(o, d, WayForward(d, env)))
  {
    hide SoundRecord, Genuine, DeviceRun, RecoverStep, FinalizeStep, CancelStep;
    match d.active.record
    case NoRecord => assert DeviceRun(o, d, []) == d by { DeviceRunNone(o, d); }
    case PreparedRec(_) =>
      CancelSettles(d, env);
      DeviceRunOne(o, d, Cancel(env));
      DeviceRunNone(o, d);
    case CommittedRec(_) =>
      CandidateSettles(o, d, env);
      DeviceRunTwo(o, d, Recover(env), Finalize(env));
  }

  lemma DeviceRunNone(o: Hashes, d: Device)
    ensures DeviceRun(o, d, []) == d
  {
  }

  /** With storage that keeps the two writes of `prepare` together the exception
      does not arise: every reachable appliance settles in at most two calls. */
  predicate PhaseAtomic(s: Step) { s.Prepare? ==> !s.env.LostAfter(1) }

  lemma {:induction false} NeverTorn(o: Hashes, d: Device, steps: seq<Step>)
    requires !TornPrepare(d) && forall i :: 0 <= i < |steps| ==> PhaseAtomic(steps[i])
    ensures !TornPrepare(DeviceRun(o, d, steps))
    decreases |steps|
  {
    hide DeviceStep, PrepareCheck, TornPrepare;
    if |steps| > 0 {
      TearsExactly(o, d, steps[0]);
      assert forall i :: 0 <= i < |steps[1..]| ==> steps[1..][i] == steps[i + 1];
      NeverTorn(o, DeviceStep(o, d, steps[0]), steps[1..]);
    }
  }

  lemma ReachableSettles(o: Hashes, id: Identity, root: Digest, steps: seq<Step>, env: Env)
    requires forall i :: 0 <= i < |steps| ==> PhaseAtomic(steps[i]) && Quiet(steps[i])
    requires FaultFree(env)
    ensures var d := Run(o, Init(id, id.h0, root), steps).dev;
            !d.firmwareBoundaryInvalid && !d.rmemoryMapInvalid ==>
              Settled(Run(o, Init(id, id.h0, root), steps + WayForward(d, env)).dev)
  {
    hide DeviceStep, SoundRecord, Genuine, WayForward;
    var d0 := New(id, id.h0, root);
    var w := Run(o, Init(id, id.h0, root), steps);
    DeviceOfRun(o, Init(id, id.h0, root), steps);
    NewCoherent(o, id, id.h0, root);
    AlignedRun(o, d0, steps);
    NeverTorn(o, d0, steps);
    if !w.dev.firmwareBoundaryInvalid && !w.dev.rmemoryMapInvalid {
      var more := WayForward(w.dev, env);
      WayForwardSettles(o, w.dev, env);
      DeviceOfRun(o, Init(id, id.h0, root), steps + more);
      DeviceRunConcat(o, d0, steps, more);
    }
  }

  lemma {:induction false} DeviceRunConcat(o: Hashes, d: Device, a: seq<Step>, b: seq<Step>)
    ensures DeviceRun(o, d, a + b) == DeviceRun(o, DeviceRun(o, d, a), b)
    decreases |a|
  {
    hide DeviceStep;
    if |a| == 0 {
      assert a + b == b;
    } else {
      assert (a + b)[0] == a[0] && (a + b)[1..] == a[1..] + b;
      DeviceRunConcat(o, DeviceStep(o, d, a[0]), a[1..], b);
    }
  }
}
