/** What an undisturbed appliance achieves: any number of transfers, one after the
    other, each prepared, committed, emitted and finalized. */
module Liveness {
  import opened Util
  import opened Hashing
  import opened RootAdvance
  import opened DeviceModel
  import opened Protocol
  import opened LinearHistory
  import opened Recovery

  datatype Transfer = Transfer(t: Transition, challenge: Digest, prep: Env, commit: Env, finalize: Env)

  ghost predicate Faultless(x: Transfer) { FaultFree(x.prep) && FaultFree(x.commit) && FaultFree(x.finalize) }

  function Calls(x: Transfer): seq<Step> {
    [Prepare(x.t, x.challenge, x.prep), Commit(x.commit), Emit, Finalize(x.finalize)]
  }

  function AllCalls(xs: seq<Transfer>): seq<Step>
    decreases |xs|
  {
    if |xs| == 0 then [] else Calls(xs[0]) + AllCalls(xs[1..])
  }

  /** Each transfer starts from the root and index the one before it ends in. */
  predicate Chained(root: Digest, u: u64, xs: seq<Transfer>)
    decreases |xs|
  {
    |xs| == 0 ||
    (var t := xs[0].t;
     && t.prevRoot == root && t.anchorCounter == u && t.nextAnchorCounter == u + 1
     && Chained(t.nextRoot, t.nextAnchorCounter, xs[1..]))
  }

  lemma RunFour(o: Hashes, w: World, a: Step, b: Step, c: Step, d: Step)
    ensures Run(o, w, [a, b, c, d]) == Next(o, Next(o, Next(o, Next(o, w, a), b), c), d)
  {
    hide Next;
    RunConcat(o, w, [a], [b, c, d]);
    assert [a] + [b, c, d] == [a, b, c, d];
    RunOne(o, w, a);
    RunThree(o, Next(o, w, a), b, c, d);
  }

  lemma RunOne(o: Hashes, w: World, a: Step)
    ensures Run(o, w, [a]) == Next(o, w, a)
  {
    hide Next;
    assert [a][1..] == [];
    assert Run(o, w, [a]) == Run(o, Next(o, w, a), []);
  }

  /** `prepare` and `commit` of a fitting transfer leave its release pending. */
  ghost predicate Delivered(w: World, v: World, t: Transition) {
    && v.dev.id == w.dev.id && v.dev.h == w.dev.h - 1
    && v.dev.active.root == w.dev.active.root && v.dev.active.u == t.nextAnchorCounter
    && v.dev.active.record.CommittedRec? && v.dev.active.record.c.committed
    && v.dev.active.record.c.nextRoot == t.nextRoot && v.dev.active.record.c.release.transition == t
    && v.dev.firmwareBoundaryInvalid == w.dev.firmwareBoundaryInvalid
    && v.dev.rmemoryMapInvalid == w.dev.rmemoryMapInvalid
    && v.ledger == w.ledger && v.exports == w.exports && v.skipped == w.skipped
  }

  lemma CommitDelivers(o: Hashes, w: World, t: Transition, challenge: Digest, prep: Env, commit: Env)
    requires Settled(w.dev) && Follows(w.dev, t) && w.dev.h > 0 && FaultFree(prep) && FaultFree(commit)
    ensures Delivered(w, Next(o, Next(o, w, Prepare(t, challenge, prep)), Commit(commit)), t)
  {
    hide ReleaseOf, RecordOf, PrepareStep, CommitStep, PrepareCheck, CommitCheck;
    var w1 := Next(o, w, Prepare(t, challenge, prep));
    FaultFreePrepare(o, w.dev, t, challenge, prep);
    FaultFreeCommit(o, w1.dev, commit);
    assert Candidate(o, w1.dev, w1.dev.active.record.p).release.transition == t by {
      ReleaseTransition(o, w1.dev, w1.dev.active.record.p);
    }
  }

  lemma ReleaseTransition(o: Hashes, d: Device, p: PreparedRecord)
    requires |p.skHw| == 32 && d.h > 0
    ensures ReleaseOf(o, d, p).transition == p.txn
  {
  }

  /** A transfer that fits and can be counted completes: exported, finalized, and
      the appliance settled at the successor. */
  lemma TransferCompletes(o: Hashes, w: World, x: Transfer)
    requires Settled(w.dev) && Faultless(x) && Follows(w.dev, x.t) && w.dev.h > 0
    ensures var v := Run(o, w, Calls(x));
            && Settled(v.dev) && v.dev.id == w.dev.id && v.dev.h == w.dev.h - 1
            && v.dev.active == Active(x.t.nextRoot, x.t.nextAnchorCounter, Ready, NoRecord)
            && v.dev.firmwareBoundaryInvalid == w.dev.firmwareBoundaryInvalid
            && v.dev.rmemoryMapInvalid == w.dev.rmemoryMapInvalid
            && |v.ledger| == |w.ledger| + 1 && v.skipped == w.skipped
            && var r := v.ledger[|w.ledger|];
               v.ledger == w.ledger + [r] && v.exports == w.exports + [r] && r.transition == x.t
  {
    hide PrepareStep, CommitStep, PrepareCheck, CommitCheck;
    RunFour(o, w, Prepare(x.t, x.challenge, x.prep), Commit(x.commit), Emit, Finalize(x.finalize));
    CommitDelivers(o, w, x.t, x.challenge, x.prep, x.commit);
    var w2 := Next(o, Next(o, w, Prepare(x.t, x.challenge, x.prep)), Commit(x.commit));
    EmitThenFinalize(o, w2, x.finalize);
  }

  lemma EmitThenFinalize(o: Hashes, w: World, env: Env)
    requires FaultFree(env) && w.dev.active.record.CommittedRec? && w.dev.active.record.c.committed
    requires w.dev.active.u + w.dev.h == w.dev.id.h0
    ensures var v, c := Next(o, Next(o, w, Emit), Finalize(env)), w.dev.active.record.c;
            && v.dev == w.dev.(active := Active(c.nextRoot, w.dev.active.u, Ready, NoRecord))
            && v.ledger == w.ledger + [c.release] && v.exports == w.exports + [c.release] && v.skipped == w.skipped
  {
  }

  /** A transfer that does not fit, or meets an exhausted counter, counts nothing;
      in the first case it also leaves the appliance alone. */
  lemma TransferRefused(o: Hashes, w: World, x: Transfer)
    requires Coherent(o, w.dev) && Settled(w.dev) && Faultless(x) && !(Follows(w.dev, x.t) && w.dev.h > 0)
    ensures Run(o, w, Calls(x)).ledger == w.ledger && Run(o, w, Calls(x)).exports == w.exports
    ensures !Follows(w.dev, x.t) ==> Run(o, w, Calls(x)).dev == w.dev
  {
    hide SoundRecord, Genuine, RecordOf, CommitWrites;
    var d := w.dev;
    RunFour(o, w, Prepare(x.t, x.challenge, x.prep), Commit(x.commit), Emit, Finalize(x.finalize));
    var w1 := Next(o, w, Prepare(x.t, x.challenge, x.prep));
    PreparesExactly(o, d, x.t, x.challenge, x.prep);
    CommitsExactly(o, w1.dev, x.commit);
    if Follows(d, x.t) { FaultFreePrepare(o, d, x.t, x.challenge, x.prep); }
    NothingPending(o, w1, x.commit, x.finalize);
  }

  lemma NothingPending(o: Hashes, w: World, commit: Env, finalize: Env)
    requires FaultFree(commit) && !CommitStep(o, w.dev, commit).1.Done?
    requires Pending(w.dev).None?
    ensures var v := Next(o, Next(o, Next(o, w, Commit(commit)), Emit), Finalize(finalize));
            v.ledger == w.ledger && v.exports == w.exports && v.dev == w.dev
  {
    hide CommitCheck, CommitStep;
    CommitsExactly(o, w.dev, commit);
  }

  /** The history of finalized releases grows by at most one per transfer, whatever
      the state. */
  lemma {:induction false} LedgerGrowth(o: Hashes, w: World, xs: seq<Transfer>)
    ensures |Run(o, w, AllCalls(xs)).ledger| <= |w.ledger| + |xs|
    decreases |xs|
  {
    hide DeviceStep, Pending, Finalizes;
    if |xs| > 0 {
      var x := xs[0];
      RunConcat(o, w, Calls(x), AllCalls(xs[1..]));
      RunFour(o, w, Prepare(x.t, x.challenge, x.prep), Commit(x.commit), Emit, Finalize(x.finalize));
      OnlyFinalizeCounts(o, w, Prepare(x.t, x.challenge, x.prep));
      var w1 := Next(o, w, Prepare(x.t, x.challenge, x.prep));
      OnlyFinalizeCounts(o, w1, Commit(x.commit));
      var w2 := Next(o, w1, Commit(x.commit));
      OnlyFinalizeCounts(o, w2, Emit);
      OnlyFinalizeCounts(o, Next(o, w2, Emit), Finalize(x.finalize));
      LedgerGrowth(o, Run(o, w, Calls(x)), xs[1..]);
    }
  }

  lemma OnlyFinalizeCounts(o: Hashes, w: World, s: Step)
    ensures |Next(o, w, s).ledger| <= |w.ledger| + if s.Finalize? then 1 else 0
  {
    hide DeviceStep, Pending;
  }

  /** The releases `v` has beyond those of `w` are those of the transfers `xs`, in
      order, each finalized and each exported. */
  ghost predicate Completed(w: World, v: World, xs: seq<Transfer>) {
    && |v.ledger| == |w.ledger| + |xs|
    && v.ledger == w.ledger + v.ledger[|w.ledger|..]
    && v.exports == w.exports + v.ledger[|w.ledger|..]
    && v.skipped == w.skipped
    && forall i :: 0 <= i < |xs| ==> v.ledger[|w.ledger| + i].transition == xs[i].t
  }

  lemma CompletedCons(w: World, u: World, v: World, xs: seq<Transfer>)
    requires |xs| > 0 && |u.ledger| == |w.ledger| + 1 && u.skipped == w.skipped
    requires var r := u.ledger[|w.ledger|];
             u.ledger == w.ledger + [r] && u.exports == w.exports + [r] && r.transition == xs[0].t
    requires Completed(u, v, xs[1..])
    ensures Completed(w, v, xs)
  {
    var n := |w.ledger|;
    var r := u.ledger[n];
    assert v.ledger[n] == r by { assert v.ledger == u.ledger + v.ledger[n + 1..]; }
    assert v.ledger[n..] == [r] + v.ledger[n + 1..];
    assert v.ledger == w.ledger + ([r] + v.ledger[n + 1..]);
    assert v.exports == w.exports + ([r] + v.ledger[n + 1..]);
    forall i | 0 <= i < |xs|
      ensures v.ledger[n + i].transition == xs[i].t
    {
      if i > 0 { assert xs[i] == xs[1..][i - 1] && v.ledger[n + i] == v.ledger[|u.ledger| + (i - 1)]; }
    }
  }

  /** Liveness, with its exact limit. From a settled appliance, `xs` undisturbed
      transfers are all finalized if and only if they chain from the active root
      and index and the counter has that many moves left. Then every one of them
      was exported, in order, the counter moved once for each, and the appliance is
      settled again. */
  lemma {:induction false} TransfersComplete(o: Hashes, w: World, xs: seq<Transfer>)
    requires Coherent(o, w.dev) && Settled(w.dev)
    requires forall i :: 0 <= i < |xs| ==> Faultless(xs[i])
    ensures var v := Run(o, w, AllCalls(xs));
            && (|v.ledger| == |w.ledger| + |xs|
                <==> Chained(w.dev.active.root, w.dev.active.u, xs) && |xs| <= w.dev.h)
            && (|v.ledger| == |w.ledger| + |xs| ==>
                  && Completed(w, v, xs) && Coherent(o, v.dev) && Settled(v.dev)
                  && v.dev.id == w.dev.id && v.dev.h == w.dev.h - |xs|
                  && v.dev.firmwareBoundaryInvalid == w.dev.firmwareBoundaryInvalid
                  && v.dev.rmemoryMapInvalid == w.dev.rmemoryMapInvalid
                  && v.dev.active.root == if |xs| == 0 then w.dev.active.root else xs[|xs| - 1].t.nextRoot)
    decreases |xs|
  {
    hide Coherent, Next, Faultless, Calls, Completed;
    if |xs| == 0 {
      assert Completed(w, w, xs) by { CompletedNone(w, xs); }
    } else {
      var x, u := xs[0], Run(o, w, Calls(xs[0]));
      RunConcat(o, w, Calls(x), AllCalls(xs[1..]));
      if Follows(w.dev, x.t) && w.dev.h > 0 {
        TransferCompletes(o, w, x);
        SettledCoherent(o, u.dev);
        assert forall i :: 0 <= i < |xs[1..]| ==> xs[1..][i] == xs[i + 1];
        TransfersComplete(o, u, xs[1..]);
        var v := Run(o, u, AllCalls(xs[1..]));
        if |v.ledger| == |w.ledger| + |xs| { CompletedCons(w, u, v, xs); }
      } else {
        TransferRefused(o, w, x);
        LedgerGrowth(o, u, xs[1..]);
      }
    }
  }

  lemma CompletedNone(w: World, xs: seq<Transfer>)
    requires |xs| == 0
    ensures Completed(w, w, xs)
  {
  }

  lemma SettledCoherent(o: Hashes, d: Device)
    requires Settled(d) && d.active.record.NoRecord?
    ensures Coherent(o, d)
  {
  }

  /** The false promise, reached: an appliance whose `H0` moves are all spent on
      completed transfers still prepares the next one; recovery then answers that
      it can complete, and every fault-free commit fails and changes nothing. */
  lemma ExhaustedPrepareMisjudged(o: Hashes, id: Identity, root: Digest, xs: seq<Transfer>, x: Transfer, env: Env)
    requires |xs| == id.h0 && Chained(root, 0, xs) && (forall i :: 0 <= i < |xs| ==> Faultless(xs[i]))
    requires Faultless(x) && FaultFree(env)
    requires Follows(Run(o, Init(id, id.h0, root), AllCalls(xs)).dev, x.t)
    ensures var d := Run(o, Init(id, id.h0, root), AllCalls(xs) + [Prepare(x.t, x.challenge, x.prep)]).dev;
            && RecoverStep(d, env) == (d, Done(AcceptPreparedCanComplete))
            && CommitStep(o, d, env) == (d, Failed(CounterExhausted))
  {
    hide Coherent, Next, Run, Completed, AllCalls;
    var w := Init(id, id.h0, root);
    NewCoherent(o, id, id.h0, root);
    TransfersComplete(o, w, xs);
    var v := Run(o, w, AllCalls(xs));
    RunConcat(o, w, AllCalls(xs), [Prepare(x.t, x.challenge, x.prep)]);
    RunOne(o, v, Prepare(x.t, x.challenge, x.prep));
    PreparedAtZero(o, v, x, env);
  }

  lemma PreparedAtZero(o: Hashes, v: World, x: Transfer, env: Env)
    requires Settled(v.dev) && v.dev.h == 0 && Follows(v.dev, x.t) && Faultless(x) && FaultFree(env)
    requires !v.dev.firmwareBoundaryInvalid && !v.dev.rmemoryMapInvalid
    ensures var d := Next(o, v, Prepare(x.t, x.challenge, x.prep)).dev;
            && RecoverStep(d, env) == (d, Done(AcceptPreparedCanComplete))
            && CommitStep(o, d, env) == (d, Failed(CounterExhausted))
  {
    hide RecordOf, PrepareStep, PrepareCheck;
    FaultFreePrepare(o, v.dev, x.t, x.challenge, x.prep);
  }
}
