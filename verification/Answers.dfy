/** What each call answers, exactly, for every state and every environment: which
    condition leads to which reply, and what the caller may conclude from it. */
module Answers {
  import opened Util
  import opened Hashing
  import opened RootAdvance
  import opened DeviceModel
  import opened Protocol
  import opened Recovery

  /** Nothing but the counter separates the appliance from preparing `t`. */
  predicate Asked(d: Device, t: Transition) { d.active.status == Ready && Follows(d, t) }

  /** At the live index, as far as a counter read that worked can tell. */
  predicate AtIndex(d: Device, env: Env) { env.read.None? && d.active.u + d.h == d.id.h0 }

  /** The chip is asked about this transfer's witness input, at the appliance's
      slot. */
  function ChipAnswer(o: Hashes, d: Device, t: Transition, challenge: Digest, env: Env): Result<Digest, TropicError> {
    env.macd(d.id.slot, Binding(t, d.id.anchorId, d.id.slot, challenge, []).X(o))
  }

  lemma PrepareAnswers(o: Hashes, d: Device, t: Transition, challenge: Digest, env: Env)
    ensures var (e, reply) := PrepareStep(o, d, t, challenge, env);
            var ready, w := Asked(d, t) && AtIndex(d, env), ChipAnswer(o, d, t, challenge, env);
            && (reply == Failed(WrongState) <==> d.active.status != Ready)
            && (reply == Failed(PrevRootMismatch) <==> d.active.status == Ready && t.prevRoot != d.active.root)
            && (reply == Failed(IndexMismatch) <==>
                  d.active.status == Ready && t.prevRoot == d.active.root && !Follows(d, t))
            && (reply == Failed(CounterMismatch) <==>
                  Asked(d, t) && env.read.None? && d.active.u + d.h != d.id.h0)
            && (forall c :: reply == Failed(Chip(c)) <==>
                  (Asked(d, t) && env.read == Some(c)) || (ready && w == Err(c)))
            && (reply == PowerLost <==> ready && w.Ok? && (env.LostAfter(0) || env.LostAfter(1)))
            && (reply == Done(()) <==> ready && w.Ok? && !env.LostAfter(0) && !env.LostAfter(1))
            && (reply.Failed? ==> e == d)
            && (reply.Done? ==>
                  e == d.(active := Active(d.active.root, d.active.u, Prepared, PreparedRec(RecordOf(
                         o, Derivation(w.value, t, d.id.anchorId, d.id.slot, challenge))))))
  {
    hide TransitionDigestOf, RecordOf;
  }

  /** One witness call for each exact root advance: a preparation derives a key if
      and only if it asked the chip, once, for that transfer's input and slot, and
      was answered; whatever is refused earlier leaves the chip's slot alone. */
  lemma OneWitnessCall(o: Hashes, d: Device, t: Transition, challenge: Digest, env: Env)
    ensures var asks, check := Asks(o, d, t, challenge, env), PrepareCheck(o, d, t, challenge, env);
            && (check.Ok? <==> |asks| == 1 && env.macd(asks[0].0, asks[0].1).Ok?)
            && (check.Ok? ==>
                  var v := check.value;
                  asks == [(d.id.slot, v.X(o))] && env.macd(d.id.slot, v.X(o)) == Ok(v.w) && v.t == t
                  && v.anchorId == d.id.anchorId && v.slot == d.id.slot && v.challenge == challenge)
            && (|asks| != 0 ==> asks == [(d.id.slot, Binding(t, d.id.anchorId, d.id.slot, challenge, []).X(o))])
            && (|asks| != 0 <==> Asked(d, t) && AtIndex(d, env))
  {
    hide TransitionDigestOf;
  }

  lemma CommitAnswers(o: Hashes, d: Device, env: Env)
    ensures var (e, reply) := CommitStep(o, d, env);
            var r := d.active.record;
            var keyed := r.PreparedRec? && |r.p.skHw| > 0;
            var parent := keyed && r.p.txn.prevRoot == d.active.root;
            var read := parent && env.read.None?;
            var starts := read && d.h > 0 && r.p.txn.anchorCounter + d.h == d.id.h0;
            var moves := Drop(d.h, env.drift) > 0 && env.update.Moved?;
            && (reply == Failed(WrongState) <==> !r.PreparedRec?)
            && (reply == Failed(WitnessKeyLost) <==> r.PreparedRec? && |r.p.skHw| == 0)
            && (reply == Failed(PrevRootMismatch) <==> keyed && r.p.txn.prevRoot != d.active.root)
            && (forall c :: reply == Failed(Chip(c)) <==> parent && env.read == Some(c))
            && (reply == Failed(CounterMismatch) <==>
                  read && d.h > 0 && r.p.txn.anchorCounter + d.h != d.id.h0)
            && (reply == Failed(CounterExhausted) <==>
                  (read && d.h == 0) || (starts && !moves && (env.cut.None? || env.cut.value > 4)))
            && (reply == PowerLost <==> starts && env.cut.Some? && env.cut.value <= if moves then 5 else 4)
            && (reply == Done(()) <==> starts && moves && (env.cut.None? || env.cut.value > 5))
  {
    hide Candidate;
  }

  lemma EmitAnswers(d: Device)
    ensures match EmitStep(d)
            case Ok(r) => d.active.record.CommittedRec? && d.active.record.c.committed && r == d.active.record.c.release
            case Err(e) => !(d.active.record.CommittedRec? && d.active.record.c.committed) && e == NotCommitted
  {
  }

  lemma FinalizeAnswers(d: Device, env: Env)
    ensures var (e, reply) := FinalizeStep(d, env);
            && (reply == Failed(NotCommitted) <==> Pending(d).None?)
            && (forall c :: reply == Failed(Chip(c)) <==> Pending(d).Some? && env.read == Some(c))
            && (reply == Failed(CounterMismatch) <==>
                  Pending(d).Some? && env.read.None? && d.active.u + d.h != d.id.h0)
            && (reply == PowerLost <==> Pending(d).Some? && AtIndex(d, env) && env.LostAfter(0))
            && (forall r :: reply == Done(r) <==>
                  Pending(d).Some? && AtIndex(d, env) && !env.LostAfter(0) && r == d.active.record.c.nextRoot)
            && e == if reply.Done? then d.(active := Active(reply.value, d.active.u, Ready, NoRecord)) else d
  {
  }

  lemma CancelAnswers(d: Device, env: Env)
    ensures var (e, reply) := CancelStep(d, env);
            && (reply == Failed(WrongState) <==> !d.active.record.PreparedRec?)
            && (reply == PowerLost <==> d.active.record.PreparedRec? && env.cut.Some? && env.cut.value <= 2)
            && (reply == Done(()) <==> d.active.record.PreparedRec? && (env.cut.None? || env.cut.value > 2))
            && (reply.Failed? ==> e == d)
            && (reply.Done? ==> e == d.(active := Active(d.active.root, d.active.u, Ready, NoRecord)))
  {
  }

  // ----- recovery -----

  predicate BoundaryValid(d: Device) { !d.firmwareBoundaryInvalid && !d.rmemoryMapInvalid }

  /** The first counter read works and shows an index. */
  predicate Reads(d: Device, env: Env) { BoundaryValid(d) && env.read.None? && d.h <= d.id.h0 }

  /** The stored candidate's move is made, or is made now, and recorded without
      losing power. */
  predicate Completes(d: Device, c: CommittedRecord, env: Env) {
    var next := c.nextAnchorCounter;
    || (c.committed && next + d.h == d.id.h0 && !env.LostAfter(0))
    || (!c.committed && next + d.h == d.id.h0 && !env.LostAfter(0) && !env.LostAfter(1))
    || (!c.committed && next + d.h == d.id.h0 + 1 && c.prevRoot == d.active.root
        && Drop(d.h, env.drift) > 0 && env.update.Moved?
        && (env.cut.None? || env.cut.value > 2))
  }

  /** Power is lost while recovery completes the candidate. */
  predicate Interrupted(d: Device, c: CommittedRecord, env: Env) {
    var next := c.nextAnchorCounter;
    || (next + d.h == d.id.h0 && (env.LostAfter(0) || (!c.committed && env.LostAfter(1))))
    || (!c.committed && next + d.h == d.id.h0 + 1 && c.prevRoot == d.active.root
        && env.cut.Some? && env.cut.value <= if Drop(d.h, env.drift) > 0 && env.update.Moved? then 2 else 1)
  }

  /** Every answer of recovery but the downgrade has its exact condition, hence so
      has the downgrade. Each of them presupposes a valid boundary and a counter
      read that worked. */
  lemma RecoverAnswers(d: Device, env: Env)
    ensures var reply, a := RecoverStep(d, env).1, d.active;
            var index := Reads(d, env) && a.u + d.h == d.id.h0;
            var parent := a.record.PreparedRec? && a.record.p.txn.prevRoot == a.root;
            var stored := Reads(d, env) && a.status == Committed && a.record.CommittedRec?;
            && (forall r :: reply == Done(Accepted(r)) <==>
                  index && a.status == Ready && env.reread.None? && Drop(d.h, env.drift) > 0 && r == a.root)
            && (reply == Done(ExhaustedOnlineOnly) <==>
                  index && a.status == Ready && env.reread.None? && Drop(d.h, env.drift) == 0)
            && (reply == Done(FailClosed) <==> Reads(d, env) && a.status == Ready && a.u + d.h > d.id.h0)
            && (reply == Done(AcceptPreparedCanComplete) <==>
                  index && a.status == Prepared && parent && |a.record.p.skHw| > 0)
            && (reply == Done(OnlineCancelOrResolve) <==>
                  index && a.status == Prepared && parent && |a.record.p.skHw| == 0)
            && (forall r :: reply == Done(ReemitCommitted(r)) <==>
                  stored && Completes(d, a.record.c, env) && r == a.record.c.nextRoot)
            && (reply == PowerLost <==> stored && Interrupted(d, a.record.c, env))
            && !reply.Failed?
  {
  }

  /** Outside a valid boundary, and without a counter read, recovery says nothing
      but to go online and touches nothing. */
  lemma RecoveryNeedsBoundary(d: Device, env: Env)
    ensures !Reads(d, env) ==> RecoverStep(d, env) == (d, Done(DowngradeOnline))
  {
  }

  /** Recovery writes only to complete a stored candidate; otherwise all that moves
      is the counter, from outside. */
  lemma RecoveryWritesOnlyCandidates(d: Device, env: Env)
    ensures var e, r := RecoverStep(d, env).0, d.active.record;
            && e.active.root == d.active.root && e.active.status == d.active.status
            && (e.active != d.active ==>
                  && d.active.status == Committed && r.CommittedRec? && BoundaryValid(d)
                  && e.active.record == CommittedRec(r.c.(committed := true))
                  && e.active.u in {d.active.u, r.c.nextAnchorCounter})
            && (e.h != d.h ==> e.h <= Drop(d.h, env.drift) && d.h - e.h <= env.drift + 1)
  {
  }
}
