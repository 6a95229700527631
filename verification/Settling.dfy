/** Which appliances can still become Ready at the live index, and how the others
    got stuck. */
module Settling {
  import opened Util
  import opened Hashing
  import opened RootAdvance
  import opened DeviceModel
  import opened Protocol
  import opened Recovery

  /** The counter has passed the index of the stored candidate. */
  predicate Overtaken(d: Device) {
    d.active.record.CommittedRec? && d.active.record.c.nextAnchorCounter + d.h < d.id.h0
  }

  // ----- stuck for good -----

  lemma OvertakenStep(o: Hashes, d: Device, s: Step)
    requires Coherent(o, d) && Overtaken(d)
    ensures var e := DeviceStep(o, d, s); e.active == d.active && Overtaken(e)
    ensures !Finalizes(d, s)
    ensures s.Prepare? ==> PrepareCheck(o, d, s.t, s.challenge, s.env).Err?
    ensures s.Commit? ==> CommitCheck(d, s.env).Err?
  {
    hide SoundRecord, Genuine, RecordOf, ReleaseOf;
    GenuineIndices(o, d.id, d.active.record.c.release);
  }

  /** An overtaken candidate locks the appliance as well: no later call, crash or
      recovery derives a key, signs, finalizes, or changes anything stored; all
      that `emit` may still return is the release that was pending already. */
  lemma {:induction false} OvertakenIsLocked(o: Hashes, w: World, steps: seq<Step>)
    requires Coherent(o, w.dev) && Overtaken(w.dev)
    ensures var v := Run(o, w, steps);
            && Overtaken(v.dev) && v.dev.active == w.dev.active
            && v.ledger == w.ledger && v.derivations == w.derivations && v.signings == w.signings
            && w.exports <= v.exports
            && forall k :: |w.exports| <= k < |v.exports| ==> Pending(w.dev) == Some(v.exports[k])
    decreases |steps|
  {
    hide Coherent, DeviceStep, PrepareCheck, CommitCheck, FinalizeStep, Pending, Overtaken;
    if |steps| > 0 {
      OvertakenStep(o, w.dev, steps[0]);
      StepCoherent(o, w.dev, steps[0]);
      SamePending(w.dev, DeviceStep(o, w.dev, steps[0]));
      OvertakenIsLocked(o, Next(o, w, steps[0]), steps[1..]);
    }
  }

  lemma SamePending(d: Device, e: Device)
    requires d.active == e.active
    ensures Pending(d) == Pending(e)
  {
  }

  lemma {:induction false} OvertakenStays(o: Hashes, d: Device, steps: seq<Step>)
    requires Coherent(o, d) && Overtaken(d)
    ensures !Settled(DeviceRun(o, d, steps))
    decreases |steps|
  {
    hide Coherent, DeviceStep, Overtaken, Settled;
    if |steps| > 0 {
      OvertakenStep(o, d, steps[0]);
      StepCoherent(o, d, steps[0]);
      OvertakenStays(o, DeviceStep(o, d, steps[0]), steps[1..]);
    } else {
      OvertakenUnsettled(o, d);
    }
  }

  lemma OvertakenUnsettled(o: Hashes, d: Device)
    requires Coherent(o, d) && Overtaken(d)
    ensures !Settled(d)
  {
    hide SoundRecord, Genuine;
  }

  lemma {:induction false} StrandedStays(o: Hashes, d: Device, steps: seq<Step>)
    requires Coherent(o, d) && Stranded(d)
    ensures !Settled(DeviceRun(o, d, steps))
    decreases |steps|
  {
    hide Coherent, DeviceStep;
    if |steps| > 0 {
      StrandedStep(o, d, steps[0]);
      StepCoherent(o, d, steps[0]);
      StrandedStays(o, DeviceStep(o, d, steps[0]), steps[1..]);
    }
  }

  /** The first transfer of a new appliance, cut with its candidate stored and its
      move not made, and overtaken by two outside moves: not torn, not stranded,
      and never settled or exported again. */
  lemma OvertakenReached(o: Hashes, id: Identity, t: Transition, challenge: Digest, prep: Env, commit: Env,
                         more: seq<Step>)
    requires id.h0 >= 2 && t.anchorCounter == 0 && t.nextAnchorCounter == 1
    requires FaultFree(prep) && commit == prep.(cut := Some(3))
    ensures var steps := [Prepare(t, challenge, prep), Commit(commit), OutOfBand, OutOfBand];
            var d := DeviceRun(o, New(id, id.h0, t.prevRoot), steps);
            var e := DeviceRun(o, d, more);
            && Overtaken(d) && !TornPrepare(d) && !Stranded(d)
            && e.active == d.active && !Settled(e) && Pending(e).None?
  {
    hide Coherent, DeviceRun, Overtaken, Stranded, TornPrepare, Pending;
    var d0 := New(id, id.h0, t.prevRoot);
    var steps := [Prepare(t, challenge, prep), Commit(commit), OutOfBand, OutOfBand];
    var d := DeviceRun(o, d0, steps);
    CandidateOvertaken(o, d0, t, challenge, prep, commit);
    NewCoherent(o, id, id.h0, t.prevRoot);
    CoherentRun(o, d0, steps);
    OvertakenStays(o, d, more);
    OvertakenFixed(o, d, more);
    SamePending(d, DeviceRun(o, d, more));
  }

  lemma {:induction false} CoherentRun(o: Hashes, d: Device, steps: seq<Step>)
    requires Coherent(o, d)
    ensures Coherent(o, DeviceRun(o, d, steps))
    decreases |steps|
  {
    hide Coherent, DeviceStep;
    if |steps| > 0 {
      StepCoherent(o, d, steps[0]);
      CoherentRun(o, DeviceStep(o, d, steps[0]), steps[1..]);
    }
  }

  lemma {:induction false} OvertakenFixed(o: Hashes, d: Device, steps: seq<Step>)
    requires Coherent(o, d) && Overtaken(d)
    ensures DeviceRun(o, d, steps).active == d.active
    decreases |steps|
  {
    hide Coherent, DeviceStep, Overtaken;
    if |steps| > 0 {
      OvertakenStep(o, d, steps[0]);
      StepCoherent(o, d, steps[0]);
      OvertakenFixed(o, DeviceStep(o, d, steps[0]), steps[1..]);
    }
  }

  lemma CandidateOvertaken(o: Hashes, d: Device, t: Transition, challenge: Digest, prep: Env, commit: Env)
    requires FaultFree(prep) && commit == prep.(cut := Some(3))
    requires Settled(d) && Follows(d, t) && d.h >= 2
    ensures var e := DeviceRun(o, d, [Prepare(t, challenge, prep), Commit(commit), OutOfBand, OutOfBand]);
            Overtaken(e) && !TornPrepare(e) && !Stranded(e) && Pending(e).None?
  {
    hide PrepareStep, RecordOf, ReleaseOf, DeviceRun;
    var a, b := Prepare(t, challenge, prep), Commit(commit);
    FaultFreePrepare(o, d, t, challenge, prep);
    DeviceRunTwo(o, d, a, b);
    DeviceRunTwo(o, DeviceRun(o, d, [a, b]), OutOfBand, OutOfBand);
    DeviceRunConcat(o, d, [a, b], [OutOfBand, OutOfBand]);
    assert [a, b] + [OutOfBand, OutOfBand] == [a, b, OutOfBand, OutOfBand];
  }

  // ----- the way forward -----

  function Outside(k: nat): (steps: seq<Step>)
    ensures |steps| == k
  {
    seq(k, _ => OutOfBand)
  }

  lemma {:induction false} OutsideRun(o: Hashes, d: Device, k: nat)
    ensures DeviceRun(o, d, Outside(k)) == d.(h := Drop(d.h, k))
    decreases k
  {
    if k > 0 {
      assert Outside(k)[1..] == Outside(k - 1);
      assert DeviceStep(o, d, OutOfBand) == d.(h := Drop(d.h, 1));
      OutsideRun(o, d.(h := Drop(d.h, 1)), k - 1);
    }
  }

  /** How far the counter stands above the index the device has counted to. */
  function Excess(d: Device): nat {
    if Base(d.active) + d.h > d.id.h0 then Base(d.active) + d.h - d.id.h0 else 0
  }

  /** The device once the counter is down to its index and its boundary is valid. */
  function Restored(d: Device): Device {
    d.(h := Drop(d.h, Excess(d)), firmwareBoundaryInvalid := false, rmemoryMapInvalid := false)
  }

  lemma RestoredAligned(o: Hashes, d: Device)
    requires Coherent(o, d) && !TornPrepare(d) && !Stranded(d) && !Overtaken(d)
    ensures Coherent(o, Restored(d)) && Aligned(Restored(d)) && !TornPrepare(Restored(d))
  {
    hide SoundRecord, Genuine;
    if d.active.record.CommittedRec? { GenuineIndices(o, d.id, d.active.record.c.release); }
  }

  lemma RestoredRun(o: Hashes, d: Device)
    ensures DeviceRun(o, d, Outside(Excess(d)) + [SetFlags(false, false)]) == Restored(d)
  {
    hide DeviceRun;
    OutsideRun(o, d, Excess(d));
    DeviceRunConcat(o, d, Outside(Excess(d)), [SetFlags(false, false)]);
    DeviceRunOne(o, DeviceRun(o, d, Outside(Excess(d))), SetFlags(false, false));
  }

  /** Settling, exactly: a coherent appliance can become Ready at the live index,
      whatever happened to its counter and its boundary, if and only if its
      preparation was not torn and the counter has neither passed its index nor its
      stored candidate. */
  lemma SettlesExactly(o: Hashes, d: Device, env: Env)
    requires Coherent(o, d) && FaultFree(env)
    ensures (exists steps :: Settled(DeviceRun(o, d, steps))) <==>
            !TornPrepare(d) && !Stranded(d) && !Overtaken(d)
  {
    hide Coherent, DeviceRun, Aligned, TornPrepare, Stranded, Overtaken, Settled, Restored, WayForward;
    if !TornPrepare(d) && !Stranded(d) && !Overtaken(d) {
      var first := Outside(Excess(d)) + [SetFlags(false, false)];
      RestoredRun(o, d);
      RestoredAligned(o, d);
      RestoredFlags(d);
      WayForwardSettles(o, Restored(d), env);
      DeviceRunConcat(o, d, first, WayForward(Restored(d), env));
      assert Settled(DeviceRun(o, d, first + WayForward(Restored(d), env)));
    }
    forall steps | TornPrepare(d) || Stranded(d) || Overtaken(d)
      ensures !Settled(DeviceRun(o, d, steps))
    {
      if TornPrepare(d) {
        TornPrepareIsStuck(o, d, steps);
        TornUnsettled(DeviceRun(o, d, steps));
      } else if Stranded(d) {
        StrandedStays(o, d, steps);
      } else {
        OvertakenStays(o, d, steps);
      }
    }
  }

  lemma RestoredFlags(d: Device)
    ensures !Restored(d).firmwareBoundaryInvalid && !Restored(d).rmemoryMapInvalid
  {
  }

  lemma TornUnsettled(d: Device)
    requires TornPrepare(d)
    ensures !Settled(d)
  {
  }

  /** Where nobody else moved the counter, only a torn preparation is stuck. */
  lemma SettlesUnlessTorn(o: Hashes, d: Device, env: Env)
    requires Coherent(o, d) && Aligned(d) && FaultFree(env)
    ensures !TornPrepare(d) <==> exists steps :: Settled(DeviceRun(o, d, steps))
  {
    hide Coherent, DeviceRun, Settled;
    SettlesExactly(o, d, env);
    AlignedNotPassed(o, d);
  }

  lemma AlignedNotPassed(o: Hashes, d: Device)
    requires Coherent(o, d) && Aligned(d)
    ensures !Stranded(d) && !Overtaken(d)
  {
    hide SoundRecord, Genuine;
    if d.active.record.CommittedRec? { GenuineIndices(o, d.id, d.active.record.c.release); }
  }
}
