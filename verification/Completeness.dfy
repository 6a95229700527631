/** What becomes of a prepared transfer whose commit is interrupted, and whether a
    receiver ends up accepting it. */
module Completeness {
  import opened Util
  import opened Hashing
  import opened RootAdvance
  import opened DeviceModel
  import opened Protocol
  import opened Accept
  import opened Recovery
  import opened Receivers
  import Proto
  import Wots

  /** `t` may be prepared on `d`, and recovery is allowed to act. */
  predicate CanPrepare(d: Device, t: Transition) {
    Settled(d) && Follows(d, t) && !d.firmwareBoundaryInvalid && !d.rmemoryMapInvalid
  }

  /** The commit passes its checks and gets as far as storing its candidate. */
  predicate Stores(d: Device, env: Env) {
    env.read.None? && d.h > 0 && (env.cut.None? || env.cut.value >= 3)
  }

  /** The commit erases the witness key and gets no further than the status. */
  predicate LosesKey(d: Device, env: Env) {
    env.read.None? && d.h > 0 && env.cut.Some? && 1 <= env.cut.value <= 2
  }

  /** Recoveries, interrupted anywhere, with any chip failure. */
  predicate Recoveries(steps: seq<Step>) {
    forall i :: 0 <= i < |steps| ==> steps[i].Recover? && Quiet(steps[i])
  }

  function Committing(o: Hashes, d: Device, t: Transition, challenge: Digest, prep: Env, env: Env): Device {
    CommitStep(o, PrepareStep(o, d, t, challenge, prep).0, env).0
  }

  /** Prepare `t`, commit it in environment `env`, recover as often as it takes to
      get through once. */
  function CommitThenRecover(o: Hashes, d: Device, t: Transition, challenge: Digest, prep: Env, env: Env,
                             tries: seq<Step>, rec: Env): (Device, Reply<RecoverOutcome>)
  {
    RecoverStep(DeviceRun(o, Committing(o, d, t, challenge, prep, env), tries), rec)
  }

  // ----- the candidate is stored -----

  lemma CandidateFields(o: Hashes, d: Device, p: PreparedRecord)
    requires |p.skHw| == 32 && d.h > 0
    ensures var c := Candidate(o, d, p);
            && !c.committed && c.release.transition == p.txn && c.release.cert.receiverChallenge == p.receiverChallenge
            && c.nextRoot == p.txn.nextRoot && c.nextAnchorCounter == p.txn.nextAnchorCounter
            && c.anchorCounter == p.txn.anchorCounter && c.prevRoot == p.txn.prevRoot
  {
    hide Wots.Sign;
  }

  /** The candidate `c` is stored, its move recorded or not. */
  predicate Holding(d: Device, c: CommittedRecord) {
    && d.active.status == Committed && d.active.record.CommittedRec?
    && d.active.record.c.(committed := false) == c
    && !d.firmwareBoundaryInvalid && !d.rmemoryMapInvalid
  }

  lemma CommitStores(o: Hashes, d: Device, p: PreparedRecord, env: Env)
    requires d.active.record == PreparedRec(p) && |p.skHw| == 32 && p.txn.prevRoot == d.active.root
    requires p.txn.anchorCounter + d.h == d.id.h0 && Stores(d, env) && env.drift == 0
    requires !d.firmwareBoundaryInvalid && !d.rmemoryMapInvalid
    ensures var e := CommitStep(o, d, env).0;
            Holding(e, Candidate(o, d, p)) && e.id == d.id
            && (env.cut.None? && env.update.Moved? ==> Pending(e) == Some(Candidate(o, d, p).release))
  {
    CandidateFields(o, d, p);
    hide Candidate;
  }

  lemma {:induction false} HoldingRun(o: Hashes, d: Device, c: CommittedRecord, tries: seq<Step>)
    requires Holding(d, c) && Coherent(o, d) && Aligned(d) && Recoveries(tries)
    ensures var e := DeviceRun(o, d, tries); Holding(e, c) && Coherent(o, e) && Aligned(e) && e.id == d.id
    decreases |tries|
  {
    hide Coherent, Aligned, Holding, DeviceStep, Quiet;
    if |tries| > 0 {
      StepCoherent(o, d, tries[0]);
      AlignedStep(o, d, tries[0]);
      RecoverHolds(o, d, c, tries[0]);
      assert forall i :: 0 <= i < |tries[1..]| ==> tries[1..][i] == tries[i + 1];
      HoldingRun(o, DeviceStep(o, d, tries[0]), c, tries[1..]);
    }
  }

  lemma RecoverHolds(o: Hashes, d: Device, c: CommittedRecord, s: Step)
    requires Holding(d, c) && s.Recover?
    ensures Holding(DeviceStep(o, d, s), c) && DeviceStep(o, d, s).id == d.id
  {
  }

  /** One recovery that gets through reports the stored candidate's successor. */
  lemma HoldingRecovers(o: Hashes, d: Device, c: CommittedRecord, rec: Env)
    requires Holding(d, c) && Coherent(o, d) && Aligned(d) && FaultFree(rec)
    ensures var next := c.nextAnchorCounter;
            && next <= d.id.h0
            && RecoverStep(d, rec) == (d.(h := d.id.h0 - next,
                                          active := Active(d.active.root, next, Committed,
                                                           CommittedRec(c.(committed := true)))),
                                       Done(ReemitCommitted(c.nextRoot)))
            && FinalizeStep(RecoverStep(d, rec).0, rec).1 == Done(c.nextRoot)
  {
    hide Genuine, SoundRecord;
    GenuineIndices(o, d.id, d.active.record.c.release);
  }

  // ----- the candidate is not stored -----

  /** A prepared record whose key is gone, on an appliance that is not Ready. */
  predicate KeyGone(d: Device) {
    d.active.status != Ready && d.active.record.PreparedRec? && |d.active.record.p.skHw| == 0
  }

  lemma KeyGoneStep(o: Hashes, d: Device, s: Step)
    requires KeyGone(d) && !s.Cancel?
    ensures DeviceStep(o, d, s).active == d.active
  {
    hide RecordOf, ReleaseOf;
  }

  lemma {:induction false} KeyGoneRun(o: Hashes, d: Device, steps: seq<Step>)
    requires KeyGone(d) && forall i :: 0 <= i < |steps| ==> !steps[i].Cancel?
    ensures DeviceRun(o, d, steps).active == d.active
    decreases |steps|
  {
    hide DeviceStep;
    if |steps| > 0 {
      KeyGoneStep(o, d, steps[0]);
      assert forall i :: 0 <= i < |steps[1..]| ==> steps[1..][i] == steps[i + 1];
      KeyGoneRun(o, DeviceStep(o, d, steps[0]), steps[1..]);
    }
  }

  /** Without a candidate recovery touches nothing, interrupted or not. */
  lemma {:induction false} IdleRecoveries(o: Hashes, d: Device, tries: seq<Step>)
    requires !d.active.record.CommittedRec? && Recoveries(tries)
    ensures DeviceRun(o, d, tries) == d
    decreases |tries|
  {
    if |tries| > 0 {
      IdleRecovery(o, d, tries[0]);
      assert forall i :: 0 <= i < |tries[1..]| ==> tries[1..][i] == tries[i + 1];
      IdleRecoveries(o, d, tries[1..]);
    }
  }

  lemma IdleRecovery(o: Hashes, d: Device, s: Step)
    requires !d.active.record.CommittedRec? && s.Recover? && Quiet(s)
    ensures DeviceStep(o, d, s) == d
  {
  }

  // ----- the outcome -----

  /** The state in which the commit starts. */
  lemma PreparedFor(o: Hashes, d: Device, t: Transition, challenge: Digest, prep: Env) returns (p: PreparedRecord)
    requires Coherent(o, d) && CanPrepare(d, t) && FaultFree(prep)
    ensures var e := PrepareStep(o, d, t, challenge, prep).0;
            && e == d.(active := Active(d.active.root, d.active.u, Prepared, PreparedRec(p)))
            && p.txn == t && |p.skHw| == 32 && p.receiverChallenge == challenge
            && Coherent(o, e) && Aligned(e)
  {
    hide Coherent, PrepareStep, RecordOf;
    FaultFreePrepare(o, d, t, challenge, prep);
    PrepareKeepsCoherent(o, d, t, challenge, prep);
    p := PrepareStep(o, d, t, challenge, prep).0.active.record.p;
  }

  /** A commit that got far enough: whatever interrupts it and the recoveries after
      it, the first recovery that gets through reports the successor, with the
      counter moved once; the release is the one the commit assembled, the one an
      uninterrupted commit leaves, and `finalize` installs the successor. */
  lemma StoredCommitCompletes(o: Hashes, d: Device, t: Transition, challenge: Digest, prep: Env, env: Env,
                              tries: seq<Step>, rec: Env)
    requires Coherent(o, d) && CanPrepare(d, t) && FaultFree(prep) && FaultFree(rec)
    requires env.drift == 0 && Recoveries(tries)
    requires Stores(d, env)
    ensures var (e, reply) := CommitThenRecover(o, d, t, challenge, prep, env, tries, rec);
            && reply == Done(ReemitCommitted(t.nextRoot))
            && e.id == d.id && e.h == d.h - 1 && Coherent(o, e)
            && e.active.record.CommittedRec? && e.active.record.c.nextAnchorCounter + e.h == e.id.h0
            && EmitStep(e).Ok? && EmitStep(e).value.transition == t
            && EmitStep(e).value.cert.receiverChallenge == challenge
            && FinalizeStep(e, rec).1 == Done(t.nextRoot)
            && (env.cut.None? && env.update.Moved? ==>
                  Pending(Committing(o, d, t, challenge, prep, env)) == Some(EmitStep(e).value))
  {
    hide PrepareStep, CommitStep, Candidate, Coherent, Aligned, RecoverStep, DeviceRun, Recoveries;
    var p := PreparedFor(o, d, t, challenge, prep);
    var d1 := PrepareStep(o, d, t, challenge, prep).0;
    CommitStores(o, d1, p, env);
    CandidateFields(o, d1, p);
    CommitKeepsCoherent(o, d1, env);
    AlignedCommit(o, d1, env);
    var d2 := CommitStep(o, d1, env).0;
    HoldingRun(o, d2, Candidate(o, d1, p), tries);
    var d3 := DeviceRun(o, d2, tries);
    HoldingRecovers(o, d3, Candidate(o, d1, p), rec);
    RecoverKeepsCoherent(o, d3, rec);
  }

  /** A counter update that reports failure: the commit is refused with the move
      made or not, and one recovery completes it, so that the counter has moved once
      in either case: it moves what has not moved and nothing else. */
  lemma RefusedUpdateCompletes(o: Hashes, d: Device, t: Transition, challenge: Digest, prep: Env, env: Env, rec: Env)
    requires Coherent(o, d) && CanPrepare(d, t) && FaultFree(prep) && FaultFree(rec)
    requires env.read.None? && env.drift == 0 && env.cut.None? && env.update.Refused? && d.h > 0
    ensures var d1 := PrepareStep(o, d, t, challenge, prep).0;
            var (d2, reply) := CommitStep(o, d1, env);
            var (e, outcome) := RecoverStep(d2, rec);
            && reply == Failed(CounterExhausted) && Pending(d2).None?
            && d2.h == d.h - (if env.update.moved then 1 else 0)
            && outcome == Done(ReemitCommitted(t.nextRoot)) && e.h == d.h - 1
            && d2.h - e.h == if env.update.moved then 0 else 1
  {
    hide PrepareStep, Candidate, Coherent, RecoverStep;
    var p := PreparedFor(o, d, t, challenge, prep);
    var d1 := PrepareStep(o, d, t, challenge, prep).0;
    CandidateFields(o, d1, p);
    assert DeviceRun(o, CommitStep(o, d1, env).0, []) == CommitStep(o, d1, env).0;
    StoredCommitCompletes(o, d, t, challenge, prep, env, [], rec);
  }

  /** A commit that got nowhere (nothing written, the counter read failed, or the
      counter exhausted): recovery changes nothing and says that the transfer can
      complete, and a second, undisturbed commit succeeds if and only if the
      counter can still move. */
  lemma UnbegunCommitRepeats(o: Hashes, d: Device, t: Transition, challenge: Digest, prep: Env, env: Env,
                             tries: seq<Step>, rec: Env)
    requires Coherent(o, d) && CanPrepare(d, t) && FaultFree(prep) && FaultFree(rec)
    requires env.drift == 0 && Recoveries(tries)
    requires !Stores(d, env) && !LosesKey(d, env)
    ensures var (e, reply) := CommitThenRecover(o, d, t, challenge, prep, env, tries, rec);
            && reply == Done(AcceptPreparedCanComplete) && e == PrepareStep(o, d, t, challenge, prep).0
            && Pending(e).None?
            && (CommitStep(o, e, rec).1.Done? <==> d.h > 0)
  {
    hide PrepareStep, Candidate, Coherent, DeviceRun, Recoveries;
    var p := PreparedFor(o, d, t, challenge, prep);
    var d1 := PrepareStep(o, d, t, challenge, prep).0;
    assert CommitStep(o, d1, env).0 == d1;
    IdleRecoveries(o, d1, tries);
    assert RecoverStep(d1, rec) == (d1, Done(AcceptPreparedCanComplete));
    CommitsExactly(o, d1, rec);
  }

  lemma CommitLosesKey(o: Hashes, d: Device, p: PreparedRecord, env: Env)
    requires d.active.record == PreparedRec(p) && |p.skHw| == 32 && p.txn.prevRoot == d.active.root
    requires p.txn.anchorCounter + d.h == d.id.h0 && LosesKey(d, env) && env.drift == 0
    ensures var status := if env.LostAfter(1) then d.active.status else Committed;
            CommitStep(o, d, env).0 ==
              d.(active := Active(d.active.root, d.active.u, status, PreparedRec(p.(skHw := []))))
  {
    hide Candidate;
  }

  /** A commit that lost its key: no recovery reports a successor, nothing but
      `cancel` ever changes the state again, so nothing is ever exported, and
      `cancel` gives the appliance back as it was, without a record. */
  lemma LostKeyNeverCompletes(o: Hashes, d: Device, t: Transition, challenge: Digest, prep: Env, env: Env,
                              tries: seq<Step>, rec: Env, steps: seq<Step>)
    requires Coherent(o, d) && CanPrepare(d, t) && FaultFree(prep) && FaultFree(rec)
    requires env.drift == 0 && Recoveries(tries)
    requires LosesKey(d, env) && forall i :: 0 <= i < |steps| ==> !steps[i].Cancel?
    ensures var (e, reply) := CommitThenRecover(o, d, t, challenge, prep, env, tries, rec);
            && reply == Done(if env.LostAfter(1) then OnlineCancelOrResolve else DowngradeOnline)
            && Pending(e).None?
            && DeviceRun(o, e, steps).active == e.active
            && CancelStep(e, rec).0 == d.(active := Active(d.active.root, d.active.u, Ready, NoRecord))
  {
    hide PrepareStep, CommitStep, Coherent, DeviceRun, Recoveries;
    var p := PreparedFor(o, d, t, challenge, prep);
    var d1 := PrepareStep(o, d, t, challenge, prep).0;
    CommitLosesKey(o, d1, p, env);
    var d2 := CommitStep(o, d1, env).0;
    IdleRecoveries(o, d2, tries);
    RecoveryMovesCounterExactly(d2, rec);
    KeyGoneStep(o, d2, Recover(rec));
    KeyGoneRun(o, RecoverStep(d2, rec).0, steps);
  }

  /** The outcome of an interrupted commit, exactly: recovery reports the successor,
      and the release is pending, if and only if the candidate had been stored. */
  lemma OutcomeExactly(o: Hashes, d: Device, t: Transition, challenge: Digest, prep: Env, env: Env,
                       tries: seq<Step>, rec: Env)
    requires Coherent(o, d) && CanPrepare(d, t) && FaultFree(prep) && FaultFree(rec)
    requires env.drift == 0 && Recoveries(tries)
    ensures var (e, reply) := CommitThenRecover(o, d, t, challenge, prep, env, tries, rec);
            && (reply == Done(ReemitCommitted(t.nextRoot)) <==> Stores(d, env))
            && (Pending(e).Some? <==> Stores(d, env))
  {
    hide CommitThenRecover, Coherent, Recoveries;
    if Stores(d, env) {
      StoredCommitCompletes(o, d, t, challenge, prep, env, tries, rec);
    } else if LosesKey(d, env) {
      LostKeyNeverCompletes(o, d, t, challenge, prep, env, tries, rec, []);
    } else {
      UnbegunCommitRepeats(o, d, t, challenge, prep, env, tries, rec);
    }
  }

  /** End to end: a matching receiver accepts what `emit` returns after an
      interrupted commit and its recoveries, directly and after a trip over the
      wire, if and only if the candidate had been stored. */
  lemma EndToEnd(o: Hashes, d: Device, t: Transition, challenge: Digest, prep: Env, env: Env, tries: seq<Step>,
                 rec: Env, ctx: VerifierContext, dsm: DsmVerifier)
    requires Coherent(o, d) && CanPrepare(d, t) && FaultFree(prep) && FaultFree(rec)
    requires env.drift == 0 && Recoveries(tries)
    requires Matches(ctx, dsm, d.id, t, challenge)
    ensures var e := CommitThenRecover(o, d, t, challenge, prep, env, tries, rec).0;
            && (Stores(d, env) <==>
                  EmitStep(e).Ok? && AcceptOffline(o, EmitStep(e).value, ctx, dsm, ChipRead(e.h, true)).Ok?)
            && (Stores(d, env) && Proto.TransitionInBounds(t) ==>
                  Proto.ToRelease(Proto.ReleaseToPb(EmitStep(e).value)) == Ok(EmitStep(e).value))
  {
    hide CommitThenRecover, EmitStep, Coherent, Recoveries, Genuine, AcceptOffline, Matches, Stores, CanPrepare,
         Proto.TransitionInBounds, Proto.ToRelease, Proto.ReleaseToPb;
    OutcomeExactly(o, d, t, challenge, prep, env, tries, rec);
    if Stores(d, env) {
      StoredCommitCompletes(o, d, t, challenge, prep, env, tries, rec);
      var e := CommitThenRecover(o, d, t, challenge, prep, env, tries, rec).0;
      var r := EmitStep(e).value;
      MatchSuits(o, e, r, t, challenge, ctx, dsm);
      GenuineAccepted(o, e.id, r, ctx, dsm, ChipRead(e.h, true));
      if Proto.TransitionInBounds(t) {
        Proto.GenuineInBounds(o, e.id, r);
        Proto.DecodesExactlyInBounds(Proto.ReleaseToPb(r), r);
      }
    }
  }
}
