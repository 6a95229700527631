/** What holds of every run from a fresh appliance: one linear history of
    releases, and one message per witness key. */
module LinearHistory {
  import opened Util
  import opened Hashing
  import opened RootAdvance
  import opened DeviceModel
  import opened Protocol
  import Wots

  lemma {:induction false} RunConcat(o: Hashes, w: World, a: seq<Step>, b: seq<Step>)
    ensures Run(o, w, a + b) == Run(o, Run(o, w, a), b)
    decreases |a|
  {
    hide Next;
    if |a| == 0 {
      assert a + b == b;
    } else {
      assert (a + b)[0] == a[0] && (a + b)[1..] == a[1..] + b;
      RunConcat(o, Next(o, w, a[0]), a[1..], b);
    }
  }

  lemma Reachable(o: Hashes, id: Identity, h: u32, root: Digest, steps: seq<Step>)
    ensures var w := Run(o, Init(id, h, root), steps);
            Inv(o, root, w) && w.dev.id == id && Linked(root, History(w))
  {
    hide Inv, Run, Linked, History;
    InitInv(o, id, h, root);
    RunInv(o, root, Init(id, h, root), steps);
    InvLinked(o, root, Run(o, Init(id, h, root), steps));
  }

  lemma InvLinked(o: Hashes, root: Digest, w: World)
    requires Inv(o, root, w)
    ensures Linked(root, History(w))
  {
    hide ExportInv, OriginInv, Linked, History, LedgerInv;
    PendingFollows(o, root, w);
  }

  /** Linear history. Whatever the chip, the power supply and other users of the
      counter do: the releases that count are linked from the first root by
      indices 1, 2, 3, ..., every export is the release of its index in that
      history, and two exports with one index are one release. */
  lemma ExportsAreLinear(o: Hashes, id: Identity, h: u32, root: Digest, steps: seq<Step>)
    ensures var w := Run(o, Init(id, h, root), steps);
            && Linked(root, History(w))
            && ExportsFrom(History(w), w.exports)
            && (forall j, k | 0 <= j < |w.exports| && 0 <= k < |w.exports| ::
                  Index(w.exports[j]) == Index(w.exports[k]) ==> w.exports[j] == w.exports[k])
  {
    hide Run, Init, LedgerInv, OriginInv, Linked, History;
    Reachable(o, id, h, root, steps);
  }

  /** Nothing is exported before its counter move: at any later time the counter
      stands at or below `H0` less the index of every export. */
  lemma ExportsAreCounted(o: Hashes, id: Identity, h: u32, root: Digest, steps: seq<Step>, k: nat)
    requires k < |Run(o, Init(id, h, root), steps).exports|
    ensures var w := Run(o, Init(id, h, root), steps); Index(w.exports[k]) + w.dev.h <= id.h0
  {
    hide Run, Init, ExportInv, OriginInv, Coherent, Linked;
    Reachable(o, id, h, root, steps);
    ExportInHistory(o, id, h, root, steps, k);
    var w := Run(o, Init(id, h, root), steps);
    HistoryCounted(o, w.dev);
  }

  lemma HistoryCounted(o: Hashes, d: Device)
    requires Coherent(o, d)
    ensures Base(d.active) == 0 || Base(d.active) + d.h <= d.id.h0
    ensures Pending(d).Some? ==> Base(d.active) + 1 + d.h <= d.id.h0
  {
    hide SoundRecord, Genuine;
    if Pending(d).Some? { GenuineIndices(o, d.id, Pending(d).value); }
  }

  lemma ExportInHistory(o: Hashes, id: Identity, h: u32, root: Digest, steps: seq<Step>, k: nat)
    requires k < |Run(o, Init(id, h, root), steps).exports|
    ensures var w := Run(o, Init(id, h, root), steps);
            1 <= Index(w.exports[k]) <= |History(w)| && w.exports[k] == History(w)[Index(w.exports[k]) - 1]
  {
    hide Run, Init, LedgerInv, OriginInv, Linked, History;
    Reachable(o, id, h, root, steps);
  }

  /** Every export is a genuine release of this appliance: the canonical
      certificate and a verifying signature. */
  lemma ExportIsGenuine(o: Hashes, id: Identity, h: u32, root: Digest, steps: seq<Step>, k: nat)
    requires k < |Run(o, Init(id, h, root), steps).exports|
    ensures Genuine(o, id, Run(o, Init(id, h, root), steps).exports[k])
  {
    hide Run, Init, LedgerInv, OriginInv, ExportInv, Linked, History, Genuine;
    Reachable(o, id, h, root, steps);
    ExportInHistory(o, id, h, root, steps, k);
    PendingFollows(o, root, Run(o, Init(id, h, root), steps));
  }

  /** The history is append-only: a later call never replaces a release that
      counted before, pending or finalized. */
  lemma HistoryOnlyGrows(o: Hashes, id: Identity, h: u32, root: Digest, before: seq<Step>, after: seq<Step>)
    ensures History(Run(o, Init(id, h, root), before)) <= History(Run(o, Init(id, h, root), before + after))
  {
    var w := Init(id, h, root);
    InitInv(o, id, h, root);
    RunInv(o, root, w, before);
    RunConcat(o, w, before, after);
    RunInv(o, root, Run(o, w, before), after);
  }

  lemma RunThree(o: Hashes, w: World, a: Step, b: Step, c: Step)
    ensures Run(o, w, [a, b, c]) == Next(o, Next(o, Next(o, w, a), b), c)
  {
    hide Next;
    assert [a, b, c][1..] == [b, c] && [b, c][1..] == [c];
    assert Run(o, w, [a, b, c]) == Run(o, Next(o, w, a), [b, c]);
    assert Run(o, Next(o, w, a), [b, c]) == Run(o, Next(o, Next(o, w, a), b), [c]);
    assert [c][1..] == [];
  }

  /** Reachable states: the index never runs ahead of the counter, so recovery
      never fails closed, and a stored candidate is at most one move ahead. */
  lemma IndexNeverAhead(o: Hashes, id: Identity, h: u32, root: Digest, steps: seq<Step>, env: Env)
    ensures var d := Run(o, Init(id, h, root), steps).dev;
            && (d.h <= d.id.h0 ==> d.active.u <= d.id.h0 - d.h)
            && (d.active.record.CommittedRec? && d.h <= d.id.h0 ==>
                  d.active.record.c.nextAnchorCounter <= d.id.h0 - d.h + 1)
            && RecoverStep(d, env).1 != Done(FailClosed)
  {
    hide Run, Init, ExportInv, OriginInv, Coherent, RecoverStep;
    Reachable(o, id, h, root, steps);
    CoherentIndex(o, Run(o, Init(id, h, root), steps).dev, env);
  }

  lemma CoherentIndex(o: Hashes, d: Device, env: Env)
    requires Coherent(o, d)
    ensures d.h <= d.id.h0 ==> d.active.u <= d.id.h0 - d.h
    ensures d.active.record.CommittedRec? && d.h <= d.id.h0 ==>
              d.active.record.c.nextAnchorCounter <= d.id.h0 - d.h + 1
    ensures RecoverStep(d, env).1 != Done(FailClosed)
  {
    hide Genuine, SoundRecord;
    if d.active.record.CommittedRec? { GenuineIndices(o, d.id, d.active.record.c.release); }
  }

  /** Two derivations collide in the key derivation or in the witness input. */
  ghost predicate DerivationsCollide(o: Hashes, a: Derivation, b: Derivation) {
    || o.KdfCollide(a.w, a.KPreimage(o), b.w, b.KPreimage(o))
    || o.Collide(a.XPreimage(o), b.XPreimage(o))
  }

  /** Signatures `j` and `k` of a run stem from two of its derivations that
      collide. */
  ghost predicate SigningsCollide(o: Hashes, w: World, j: nat, k: nat)
    requires j < |w.signings| && k < |w.signings|
  {
    exists a, b :: 0 <= a < |w.derivations| && 0 <= b < |w.derivations|
      && w.signings[j] == SigningOf(o, w.derivations[a]) && w.signings[k] == SigningOf(o, w.derivations[b])
      && DerivationsCollide(o, w.derivations[a], w.derivations[b])
  }

  /** One-time use over whole runs: whatever MAC-And-Destroy answers, and though a
      power loss may make `commit` sign again, no witness key ever signs two
      different messages, or two derivations of the run collide. */
  lemma KeysSignOnce(o: Hashes, id: Identity, h: u32, root: Digest, steps: seq<Step>, j: nat, k: nat)
    requires var n := |Run(o, Init(id, h, root), steps).signings|; j < n && k < n
    ensures var w := Run(o, Init(id, h, root), steps);
            w.signings[j].seed == w.signings[k].seed ==>
              w.signings[j].message == w.signings[k].message || SigningsCollide(o, w, j, k)
  {
    hide Run, Init, LedgerInv, ExportInv, DerivedHere, RecordOrigin, SigningsOrigin, LedgerOrigin, SigningOf;
    Reachable(o, id, h, root, steps);
    var w := Run(o, Init(id, h, root), steps);
    var a := DerivedFrom(o, w, j);
    var b := DerivedFrom(o, w, k);
    if w.signings[j].seed == w.signings[k].seed {
      SigningsAgree(o, w.derivations[a], w.derivations[b]);
    }
  }

  /** A power loss does make `commit` sign again: cut before its first write it has
      signed and stored nothing, and the commit after it signs the same message
      under the same key. */
  lemma SignsAgainAfterCrash(o: Hashes, w: World, env: Env, again: Env)
    requires CommitCheck(w.dev, env).Ok? && env.LostAfter(0) && env.drift == 0 && again.read.None?
    ensures var p := CommitCheck(w.dev, env).value;
            var s := Signing(p.skHw, p.certMessage);
            w.dev.active.record == PreparedRec(p)
            && Run(o, w, [Commit(env), Commit(again)]).signings == w.signings + [s, s]
  {
    hide Candidate;
    assert [Commit(env), Commit(again)] == [Commit(env)] + [Commit(again)];
    RunTwo(o, w, Commit(env), Commit(again));
    assert CommitStep(o, w.dev, env).0 == w.dev;
  }

  /** Likewise `prepare`: what it derived counts although nothing was stored. */
  lemma DerivesAgainAfterCrash(o: Hashes, w: World, s: Step, again: Step)
    requires s.Prepare? && again.Prepare? && s.env.LostAfter(0)
    requires PrepareCheck(o, w.dev, s.t, s.challenge, s.env).Ok?
    requires PrepareCheck(o, w.dev, again.t, again.challenge, again.env).Ok?
    ensures Run(o, w, [s, again]).derivations
            == w.derivations + [PrepareCheck(o, w.dev, s.t, s.challenge, s.env).value,
                                PrepareCheck(o, w.dev, again.t, again.challenge, again.env).value]
  {
    hide PrepareCheck;
    RunTwo(o, w, s, again);
  }

  lemma RunTwo(o: Hashes, w: World, a: Step, b: Step)
    ensures Run(o, w, [a, b]) == Next(o, Next(o, w, a), b)
  {
    hide Next;
    assert [a, b][1..] == [b] && [b][1..] == [];
    assert Run(o, w, [a, b]) == Run(o, Next(o, w, a), [b]);
  }

  lemma DerivedFrom(o: Hashes, w: World, j: nat) returns (a: nat)
    requires SigningsOrigin(o, w.derivations, w.signings) && j < |w.signings|
    ensures a < |w.derivations| && w.signings[j] == SigningOf(o, w.derivations[a])
  {
    hide SigningOf;
    assert SigningStems(o, w.derivations, w.signings[j]);
    a :| a < |w.derivations| && w.signings[j] == SigningOf(o, w.derivations[a]);
  }

  lemma SigningsAgree(o: Hashes, a: Derivation, b: Derivation)
    requires SigningOf(o, a).seed == SigningOf(o, b).seed
    ensures SigningOf(o, a).message == SigningOf(o, b).message || DerivationsCollide(o, a, b)
  {
    hide Derivation.K, Derivation.M, Wots.PublicKey;
    SeedFixesMessage(o, a, b, Wots.PublicKey(o, a.K(o)));
  }
}
