/** The appliance in the source's own form: an object over a chip handle, each
    method proved against the step function of `DeviceModel`.

    `env` resolves what the source leaves to the chip and the power supply. A
    method that returns `PowerLost` stopped at that durable write; the fields hold
    what survives. The 64-bit sums of the source are assigned to 64-bit variables
    here, so that they cannot overflow is part of the verification. */
module Anchor {
  import opened Util
  import opened Hashing
  import opened RootAdvance
  import opened DeviceModel
  import Wots

  /** The secure element, as far as the appliance relies on it. */
  class Tropic {
    var h: u32
    var asked: seq<(u16, Digest)>

    constructor (h: u32)
      ensures this.h == h && asked == []
    {
      this.h, asked := h, [];
    }

    /** What the chip answers for slot `q` and input `x` is its own affair; that it
        was asked stays with the slot. */
    method MacAndDestroy(q: u16, x: Digest, answer: (u16, Digest) -> Result<Digest, TropicError>)
      returns (w: Result<Digest, TropicError>)
      modifies this`asked
      ensures w == answer(q, x) && asked == old(asked) + [(q, x)]
    {
      asked := asked + [(q, x)];
      w := answer(q, x);
    }

    method Get(failure: Option<TropicError>) returns (r: Result<u32, TropicError>)
      ensures r == CounterGet(h, failure)
    {
      r := if failure.Some? then Err(failure.value) else Ok(h);
    }

    /** `H <- H - 1`, refused on an exhausted counter. */
    method Update(update: Update) returns (ok: bool)
      modifies this`h
      ensures (h, ok) == CounterUpdate(old(h), update)
    {
      ok := h > 0 && update.Moved?;
      if h > 0 && (update.Moved? || update.moved) {
        h := h - 1;
      }
    }

    /** Someone else moves the counter `k` times. */
    method MoveOutOfBand(k: nat)
      modifies this`h
      ensures h == Drop(old(h), k)
    {
      h := if k <= h then h - k else 0;
    }
  }

  class Appliance {
    const hashes: Hashes
    const h0: u32
    const anchorId: Digest
    const slot: u16
    const tropic: Tropic
    var active: Active
    var firmwareBoundaryInvalid: bool
    var rmemoryMapInvalid: bool

    ghost function View(): Device
      reads this, tropic
    {
      Device(Identity(h0, anchorId, slot), tropic.h, active, firmwareBoundaryInvalid, rmemoryMapInvalid)
    }

    ghost predicate Valid()
      reads this, tropic
    {
      Coherent(hashes, View())
    }

    constructor (hashes: Hashes, tropic: Tropic, h0: u32, activeRoot: Digest, anchorId: Digest, slot: u16)
      ensures Valid() && this.hashes == hashes && this.tropic == tropic
      ensures View() == New(Identity(h0, anchorId, slot), tropic.h, activeRoot)
    {
      this.hashes, this.tropic := hashes, tropic;
      this.h0, this.anchorId, this.slot := h0, anchorId, slot;
      active := Active(activeRoot, 0, Ready, NoRecord);
      firmwareBoundaryInvalid, rmemoryMapInvalid := false, false;
    }

    method LiveIndex(failure: Option<TropicError>) returns (r: Result<u64, ApplianceError>)
      ensures r == DeviceModel.LiveIndex(View(), failure)
    {
      var read := tropic.Get(failure);
      if read.Err? {
        return Err(Chip(read.error));
      }
      if read.value > h0 {
        return Err(CounterMismatch);
      }
      r := Ok(h0 - read.value);
    }

    method Prepare(t: Transition, challenge: Digest, env: Env) returns (reply: Reply<()>)
      requires Valid()
      modifies this`active, tropic`asked
      ensures Valid()
      ensures (View(), reply) == PrepareStep(hashes, old(View()), t, challenge, env)
      ensures tropic.asked == old(tropic.asked) + Asks(hashes, old(View()), t, challenge, env)
    {
      hide SoundRecord, Genuine, Wots.PublicKey, TransitionDigestOf, WitnessInputOf, PkHashOf, CertMessageOf,
           WitnessKeyMaterial;
      PrepareKeepsCoherent(hashes, View(), t, challenge, env);
      if active.status != Ready {
        return Failed(WrongState);
      }
      var sameRoot := CtEq32(active.root, t.prevRoot);
      if !sameRoot {
        return Failed(PrevRootMismatch);
      }
      if t.anchorCounter != active.u {
        return Failed(IndexMismatch);
      }
      var successor: u64 := t.anchorCounter + 1;
      if t.nextAnchorCounter != successor {
        return Failed(IndexMismatch);
      }
      var live := LiveIndex(env.read);
      if live.Err? {
        return Failed(live.error);
      }
      if active.u != live.value {
        return Failed(CounterMismatch);
      }
      var d := TransitionDigestOf(hashes, t);
      var x := WitnessInputOf(hashes, t, d, anchorId, slot, challenge);
      var w := tropic.MacAndDestroy(slot, x, env.macd);
      if w.Err? {
        return Failed(Chip(w.error));
      }
      var k := WitnessKeyMaterial(hashes, w.value, x, t, anchorId, slot);
      var sk, pk := Wots.Keygen(hashes, k);
      var pHw := PkHashOf(hashes, pk);
      var m := CertMessageOf(hashes, t, d, x, pHw, anchorId, slot, challenge);
      if env.LostAfter(0) {
        return PowerLost;
      }
      active := active.(status := Prepared);
      if env.LostAfter(1) {
        return PowerLost;
      }
      active := active.(record := PreparedRec(PreparedRecord(t, d, x, m, pk, pHw, sk, challenge)));
      reply := Done(());
    }

    method Commit(env: Env) returns (reply: Reply<()>)
      requires Valid()
      modifies this`active, tropic`h
      ensures Valid()
      ensures (View(), reply) == CommitStep(hashes, old(View()), env)
    {
      hide SoundRecord, Genuine, Wots.Sign;
      CommitKeepsCoherent(hashes, View(), env);
      if !active.record.PreparedRec? {
        return Failed(WrongState);
      }
      var p := active.record.p;
      if |p.skHw| == 0 {
        return Failed(WitnessKeyLost);
      }
      var sameRoot := CtEq32(p.txn.prevRoot, active.root);
      if !sameRoot {
        return Failed(PrevRootMismatch);
      }
      var read := tropic.Get(env.read);
      if read.Err? {
        return Failed(Chip(read.error));
      }
      var h := read.value;
      if h == 0 {
        return Failed(CounterExhausted);
      }
      if h > h0 {
        return Failed(CounterMismatch);
      }
      var live: u64 := h0 - h;
      if live != p.txn.anchorCounter {
        return Failed(CounterMismatch);
      }
      tropic.MoveOutOfBand(env.drift);

      var sigma := Wots.SignLoop(hashes, p.skHw, p.certMessage);
      assert p.skHw[..32] == p.skHw;
      var t := p.txn;
      var cert := Certificate(t.prevRoot, t.nextRoot, t.anchorCounter, t.nextAnchorCounter, p.digest, p.witnessInput,
                              p.pHw, p.pkHw, sigma, anchorId, slot, p.receiverChallenge);
      var evidence := CounterEvidence(anchorId, h0, h - 1, t.nextAnchorCounter, []);
      var c := CommittedRecord(t.prevRoot, t.nextRoot, t.anchorCounter, t.nextAnchorCounter,
                               OfflineRelease(t, cert, evidence), false);
      if env.LostAfter(0) {
        return PowerLost;
      }

      // Phase 1: erase the witness key and store the candidate.
      active := active.(record := PreparedRec(p.(skHw := [])));
      if env.LostAfter(1) {
        return PowerLost;
      }
      active := active.(status := Committed);
      if env.LostAfter(2) {
        return PowerLost;
      }
      active := active.(record := CommittedRec(c));
      if env.LostAfter(3) {
        return PowerLost;
      }

      // Phase 2: move the counter.
      var moved := tropic.Update(env.update);
      if env.LostAfter(4) {
        return PowerLost;
      }
      if !moved {
        return Failed(CounterExhausted);
      }

      // Phase 3: mark the candidate counter-committed.
      active := active.(record := CommittedRec(c.(committed := true)));
      if env.LostAfter(5) {
        return PowerLost;
      }
      active := active.(u := c.nextAnchorCounter);
      reply := Done(());
    }

    method Emit() returns (r: Result<OfflineRelease, ApplianceError>)
      ensures r == EmitStep(View())
    {
      if active.record.CommittedRec? && active.record.c.committed {
        return Ok(active.record.c.release);
      }
      r := Err(NotCommitted);
    }

    method Finalize(env: Env) returns (reply: Reply<Digest>)
      requires Valid()
      modifies this`active
      ensures Valid()
      ensures (View(), reply) == FinalizeStep(old(View()), env)
    {
      FinalizeKeepsCoherent(hashes, View(), env);
      if !active.record.CommittedRec? || !active.record.c.committed {
        return Failed(NotCommitted);
      }
      var nextRoot := active.record.c.nextRoot;
      var live := LiveIndex(env.read);
      if live.Err? {
        return Failed(live.error);
      }
      if active.u != live.value {
        return Failed(CounterMismatch);
      }
      if env.LostAfter(0) {
        return PowerLost;
      }
      active := Active(nextRoot, active.u, Ready, NoRecord);
      reply := Done(nextRoot);
    }

    method Cancel(env: Env) returns (reply: Reply<()>)
      requires Valid()
      modifies this`active
      ensures Valid()
      ensures (View(), reply) == CancelStep(old(View()), env)
    {
      CancelKeepsCoherent(hashes, View(), env);
      if !active.record.PreparedRec? {
        return Failed(WrongState);
      }
      if env.LostAfter(0) {
        return PowerLost;
      }
      active := active.(record := PreparedRec(active.record.p.(skHw := [])));
      if env.LostAfter(1) {
        return PowerLost;
      }
      active := active.(status := Ready);
      if env.LostAfter(2) {
        return PowerLost;
      }
      active := active.(record := NoRecord);
      reply := Done(());
    }

    method Recover(env: Env) returns (reply: Reply<RecoverOutcome>)
      requires Valid()
      modifies this`active, tropic`h
      ensures Valid()
      ensures (View(), reply) == RecoverStep(old(View()), env)
    {
      hide SoundRecord, Genuine;
      RecoverKeepsCoherent(hashes, View(), env);
      if firmwareBoundaryInvalid || rmemoryMapInvalid {
        return Done(DowngradeOnline);
      }
      var read := LiveIndex(env.read);
      if read.Err? {
        return Done(DowngradeOnline);
      }
      var live := read.value;
      tropic.MoveOutOfBand(env.drift);
      match active.status {
        case Committed =>
          if !active.record.CommittedRec? {
            return Done(DowngradeOnline);
          }
          var c := active.record.c;
          var afterLive: u64 := live + 1;
          if c.committed {
            if c.nextAnchorCounter != live {
              return Done(DowngradeOnline);
            }
            if env.LostAfter(0) {
              return PowerLost;
            }
            active := active.(u := c.nextAnchorCounter);
            reply := Done(ReemitCommitted(c.nextRoot));
          } else if c.nextAnchorCounter == afterLive {
            var sameRoot := CtEq32(c.prevRoot, active.root);
            if !sameRoot {
              return Done(DowngradeOnline);
            }
            if env.LostAfter(0) {
              return PowerLost;
            }
            var moved := tropic.Update(env.update);
            if !moved {
              return if env.LostAfter(1) then PowerLost else Done(DowngradeOnline);
            }
            reply := Mark(c, 1, env);
          } else if c.nextAnchorCounter == live {
            reply := Mark(c, 0, env);
          } else {
            reply := Done(DowngradeOnline);
          }
        case Prepared =>
          if active.u != live {
            return Done(DowngradeOnline);
          }
          var parentOk := false;
          if active.record.PreparedRec? {
            parentOk := CtEq32(active.record.p.txn.prevRoot, active.root);
          }
          if !parentOk {
            return Done(DowngradeOnline);
          }
          reply := Done(if |active.record.p.skHw| > 0 then AcceptPreparedCanComplete else OnlineCancelOrResolve);
        case Ready =>
          if active.u < live {
            return Done(DowngradeOnline);
          }
          if active.u > live {
            return Done(FailClosed);
          }
          var again := tropic.Get(env.reread);
          if again.Err? {
            return Done(DowngradeOnline);
          }
          if again.value == 0 {
            return Done(ExhaustedOnlineOnly);
          }
          reply := Done(Accepted(active.root));
      }
    }

    /** The two final writes shared by the branches that find the counter moved. */
    method Mark(c: CommittedRecord, n: nat, env: Env) returns (reply: Reply<RecoverOutcome>)
      requires active.record == CommittedRec(c)
      modifies this`active
      ensures (View(), reply) == MarkCommitted(old(View()), c, n, env)
    {
      if env.LostAfter(n) {
        return PowerLost;
      }
      active := active.(record := CommittedRec(c.(committed := true)));
      if env.LostAfter(n + 1) {
        return PowerLost;
      }
      active := active.(u := c.nextAnchorCounter);
      reply := Done(ReemitCommitted(c.nextRoot));
    }
  }
}
