/** Whether the exported indices leave gaps. They may: `finalize` does not ask
    whether `emit` ran. */
module Contiguity {
  import opened Util
  import opened Hashing
  import opened RootAdvance
  import opened DeviceModel
  import opened Protocol
  import opened LinearHistory
  import opened Recovery
  import opened Liveness

  ghost predicate ExportedIndex(w: World, n: nat) {
    exists k :: 0 <= k < |w.exports| && Index(w.exports[k]) == n
  }

  /** The exported indices are 1, 2, 3, ... up to the last. */
  ghost predicate Contiguous(w: World) {
    forall n: nat, m: nat :: ExportedIndex(w, m) && 1 <= n <= m ==> ExportedIndex(w, n)
  }

  // ----- in terms of what was skipped -----

  lemma LedgerIndex(root: Digest, w: World, n: nat)
    requires Linked(root, History(w)) && 1 <= n <= |w.ledger|
    ensures n <= |History(w)| && History(w)[n - 1] == w.ledger[n - 1] && Index(w.ledger[n - 1]) == n
  {
  }

  lemma ExportedExactly(hist: seq<OfflineRelease>, exports: seq<OfflineRelease>, n: nat)
    requires ExportsFrom(hist, exports) && 1 <= n <= |hist| && Index(hist[n - 1]) == n
    ensures hist[n - 1] in exports <==> exists k :: 0 <= k < |exports| && Index(exports[k]) == n
  {
  }

  lemma SkippedIsUnexported(root: Digest, w: World, n: nat)
    requires ExportInv(w) && Linked(root, History(w))
    ensures n in w.skipped <==> 1 <= n <= |w.ledger| && !ExportedIndex(w, n)
  {
    hide Linked, History, ExportsFrom;
    if 1 <= n <= |w.ledger| {
      LedgerIndex(root, w, n);
      ExportedExactly(History(w), w.exports, n);
    }
  }

  /** An exported index is at most one beyond the finalized ones. */
  lemma ExportedInHistory(w: World, m: nat)
    requires ExportInv(w) && ExportedIndex(w, m)
    ensures 1 <= m <= |w.ledger| + 1
  {
  }

  /** The exports are contiguous exactly when nothing is exported beyond a skipped
      index. */
  lemma ContiguousUnlessSkipped(root: Digest, w: World)
    requires ExportInv(w) && Linked(root, History(w))
    ensures Contiguous(w) <==> forall n: nat, m: nat :: n in w.skipped && ExportedIndex(w, m) ==> m < n
  {
    hide ExportInv, Linked, ExportedIndex, History;
    forall n: nat, m: nat | ExportedIndex(w, m) && 1 <= n <= m
      ensures n in w.skipped <==> !ExportedIndex(w, n)
    {
      SkippedIsUnexported(root, w, n);
      ExportedInHistory(w, m);
    }
    forall n: nat | n in w.skipped
      ensures 1 <= n
    {
      SkippedIsUnexported(root, w, n);
    }
  }

  // ----- in terms of the calls -----

  /** The world before the `i`-th call. */
  function At(o: Hashes, w: World, steps: seq<Step>, i: nat): World
    requires i <= |steps|
  {
    Run(o, w, steps[..i])
  }

  /** Call `i` exports a release. */
  predicate ExportsAt(o: Hashes, w: World, steps: seq<Step>, i: nat)
    requires i < |steps|
  {
    steps[i].Emit? && Pending(At(o, w, steps, i).dev).Some?
  }

  /** Call `i` finalizes a release that was not emitted before. */
  predicate DropsAt(o: Hashes, w: World, steps: seq<Step>, i: nat)
    requires i < |steps|
  {
    var u := At(o, w, steps, i);
    Finalizes(u.dev, steps[i]) && Pending(u.dev).Some? && Pending(u.dev).value !in u.exports
  }

  /** The caller's rule: whoever wants to export again emits before finalizing. */
  ghost predicate EmitsBeforeFinalizing(o: Hashes, w: World, steps: seq<Step>) {
    forall i, j :: 0 <= i < j < |steps| && ExportsAt(o, w, steps, j) ==> !DropsAt(o, w, steps, i)
  }

  lemma AtNext(o: Hashes, w: World, steps: seq<Step>, i: nat)
    requires i < |steps|
    ensures At(o, w, steps, i + 1) == Next(o, At(o, w, steps, i), steps[i])
  {
    hide Next;
    assert steps[..i + 1] == steps[..i] + [steps[i]];
    RunConcat(o, w, steps[..i], [steps[i]]);
    RunOne(o, At(o, w, steps, i), steps[i]);
  }

  lemma AtInv(o: Hashes, root: Digest, w: World, steps: seq<Step>, i: nat)
    requires Inv(o, root, w) && i <= |steps|
    ensures Inv(o, root, At(o, w, steps, i))
  {
    hide Inv;
    RunInv(o, root, w, steps[..i]);
  }

  lemma {:induction false} HistoryKept(o: Hashes, w: World, steps: seq<Step>, i: nat, k: nat)
    requires i <= k <= |steps|
    ensures var u, v := At(o, w, steps, i), At(o, w, steps, k);
            |u.ledger| <= |v.ledger| && u.skipped <= v.skipped && u.exports <= v.exports
    decreases k
  {
    hide At, DeviceStep, Finalizes, Pending;
    if i < k {
      HistoryKept(o, w, steps, i, k - 1);
      AtNext(o, w, steps, k - 1);
    }
  }

  lemma DropSkips(o: Hashes, w: World, steps: seq<Step>, i: nat)
    requires i < |steps| && DropsAt(o, w, steps, i)
    ensures var u, v := At(o, w, steps, i), At(o, w, steps, i + 1);
            |u.ledger| + 1 in v.skipped && |v.ledger| == |u.ledger| + 1
  {
    hide At, DeviceStep, FinalizeStep;
    AtNext(o, w, steps, i);
  }

  /** Every skipped index was skipped by a call. */
  lemma {:induction false} SkippedBy(o: Hashes, w: World, steps: seq<Step>, k: nat, n: nat) returns (i: nat)
    requires k <= |steps| && n in At(o, w, steps, k).skipped && w.skipped == {}
    ensures i < k && DropsAt(o, w, steps, i) && n == |At(o, w, steps, i).ledger| + 1
    decreases k
  {
    hide At, DeviceStep, FinalizeStep;
    if k == 0 {
      AtStart(o, w, steps);
      assert false;
    } else {
      AtNext(o, w, steps, k - 1);
      if n in At(o, w, steps, k - 1).skipped {
        i := SkippedBy(o, w, steps, k - 1, n);
      } else {
        i := k - 1;
        FinalizesPending(At(o, w, steps, i).dev, steps[i]);
      }
    }
  }

  lemma FinalizesPending(d: Device, s: Step)
    requires Finalizes(d, s)
    ensures d.active.record.CommittedRec? && Pending(d) == Some(d.active.record.c.release)
  {
  }

  /** Every export was made by a call, with the release then pending. */
  lemma {:induction false} ExportedBy(o: Hashes, w: World, steps: seq<Step>, k: nat, e: nat) returns (j: nat)
    requires k <= |steps| && e < |At(o, w, steps, k).exports| && w.exports == []
    ensures j < k && ExportsAt(o, w, steps, j)
    ensures Pending(At(o, w, steps, j).dev) == Some(At(o, w, steps, k).exports[e])
    decreases k
  {
    hide At, DeviceStep, Pending, Finalizes;
    if k == 0 {
      AtStart(o, w, steps);
      assert false;
    } else {
      AtNext(o, w, steps, k - 1);
      if e < |At(o, w, steps, k - 1).exports| {
        j := ExportedBy(o, w, steps, k - 1, e);
      } else {
        j := k - 1;
      }
    }
  }

  lemma AtStart(o: Hashes, w: World, steps: seq<Step>)
    ensures At(o, w, steps, 0) == w
  {
  }

  lemma AtEnd(o: Hashes, w: World, steps: seq<Step>)
    ensures At(o, w, steps, |steps|) == Run(o, w, steps)
  {
    assert steps[..|steps|] == steps;
  }

  lemma PendingIndex(o: Hashes, root: Digest, w: World)
    requires Inv(o, root, w) && Pending(w.dev).Some?
    ensures Index(Pending(w.dev).value) == |w.ledger| + 1
  {
    hide Inv, Pending;
    InvLinked(o, root, w);
    assert History(w)[|w.ledger|] == Pending(w.dev).value;
  }

  lemma GapSeen(root: Digest, w: World, n: nat, m: nat)
    requires ExportInv(w) && Linked(root, History(w)) && n in w.skipped && ExportedIndex(w, m) && n <= m
    ensures !Contiguous(w)
  {
    hide ExportInv, Linked, History, ExportedIndex, Contiguous;
    ContiguousUnlessSkipped(root, w);
  }

  /** A call that drops a release before a call that exports one leaves a gap. */
  lemma DropThenExport(o: Hashes, root: Digest, w: World, steps: seq<Step>, i: nat, j: nat)
    requires Inv(o, root, w) && i < j < |steps| && DropsAt(o, w, steps, i) && ExportsAt(o, w, steps, j)
    ensures !Contiguous(Run(o, w, steps))
  {
    hide At, Inv, Run, DropsAt, Pending, ExportInv, Linked, History, ExportedIndex, Contiguous;
    var u, e := At(o, w, steps, i), At(o, w, steps, j);
    DropSkips(o, w, steps, i);
    HistoryKept(o, w, steps, i + 1, j);
    HistoryKept(o, w, steps, i + 1, |steps|);
    AtEnd(o, w, steps);
    AtInv(o, root, w, steps, j);
    PendingIndex(o, root, e);
    ExportStays(o, w, steps, j);
    InvParts(o, root, w, steps);
    GapSeen(root, Run(o, w, steps), |u.ledger| + 1, |e.ledger| + 1);
  }

  lemma ExportStays(o: Hashes, w: World, steps: seq<Step>, j: nat)
    requires j < |steps| && ExportsAt(o, w, steps, j)
    ensures ExportedIndex(Run(o, w, steps), Index(Pending(At(o, w, steps, j).dev).value))
  {
    hide At, DeviceStep, Pending, Finalizes;
    var e := At(o, w, steps, j);
    AtNext(o, w, steps, j);
    HistoryKept(o, w, steps, j + 1, |steps|);
    AtEnd(o, w, steps);
    assert Run(o, w, steps).exports[|e.exports|] == Pending(e.dev).value;
  }

  lemma InvParts(o: Hashes, root: Digest, w: World, steps: seq<Step>)
    requires Inv(o, root, w)
    ensures ExportInv(Run(o, w, steps)) && Linked(root, History(Run(o, w, steps)))
  {
    hide LedgerInv, ExportInv, OriginInv, Linked, History;
    RunInv(o, root, w, steps);
    InvLinked(o, root, Run(o, w, steps));
  }

  /** Contiguity, exactly. The exported indices of a run are 1, 2, 3, ... if and only
      if every `finalize` that succeeds before a later export finds its release
      emitted. */
  lemma ExportsContiguous(o: Hashes, id: Identity, h: u32, root: Digest, steps: seq<Step>)
    ensures var w := Init(id, h, root); Contiguous(Run(o, w, steps)) <==> EmitsBeforeFinalizing(o, w, steps)
  {
    hide At, Inv, Linked, History, ExportInv, ExportsAt, DropsAt, Contiguous;
    var w := Init(id, h, root);
    InitInv(o, id, h, root);
    if EmitsBeforeFinalizing(o, w, steps) && !Contiguous(Run(o, w, steps)) {
      DropFound(o, root, w, steps);
    }
    forall i, j | 0 <= i < j < |steps| && ExportsAt(o, w, steps, j) && DropsAt(o, w, steps, i)
      ensures !Contiguous(Run(o, w, steps))
    {
      DropThenExport(o, root, w, steps, i, j);
    }
  }

  lemma DropFound(o: Hashes, root: Digest, w: World, steps: seq<Step>)
    requires Inv(o, root, w) && w.skipped == {} && w.exports == [] && !Contiguous(Run(o, w, steps))
    ensures !EmitsBeforeFinalizing(o, w, steps)
  {
    hide At, Inv, Linked, History, ExportInv, ExportsAt, DropsAt, Pending, Contiguous;
    var v := Run(o, w, steps);
    InvParts(o, root, w, steps);
    ContiguousUnlessSkipped(root, v);
    AtEnd(o, w, steps);
    var n: nat, m: nat :| n in v.skipped && ExportedIndex(v, m) && m >= n;
    var e: nat :| e < |v.exports| && Index(v.exports[e]) == m;
    var i := SkippedBy(o, w, steps, |steps|, n);
    var j := ExportedBy(o, w, steps, |steps|, e);
    AtInv(o, root, w, steps, j);
    PendingIndex(o, root, At(o, w, steps, j));
    if j < i { HistoryKept(o, w, steps, j, i); }
    assert j != i by { OneCall(o, w, steps, i); }
    SkipBelow(o, root, w, steps, n, m);
  }

  /** A skipped index is not exported, so an index at least as large is larger. */
  lemma SkipBelow(o: Hashes, root: Digest, w: World, steps: seq<Step>, n: nat, m: nat)
    requires Inv(o, root, w) && n in Run(o, w, steps).skipped && ExportedIndex(Run(o, w, steps), m)
    ensures n != m
  {
    hide Inv, Linked, History, ExportInv, ExportedIndex;
    InvParts(o, root, w, steps);
    SkippedIsUnexported(root, Run(o, w, steps), n);
  }

  lemma OneCall(o: Hashes, w: World, steps: seq<Step>, i: nat)
    requires i < |steps|
    ensures !(DropsAt(o, w, steps, i) && ExportsAt(o, w, steps, i))
  {
    hide At, FinalizeStep;
  }

  /** A run with a gap: the first transfer is finalized without being emitted, the
      second is emitted. The only export has index 2 and does not start from the
      first root. */
  lemma UnemittedFinalizeSkips(o: Hashes, id: Identity, x: Transfer, y: Transfer)
    requires id.h0 >= 2 && Chained(x.t.prevRoot, 0, [x, y]) && Faultless(x) && Faultless(y)
    ensures var v := Run(o, Init(id, id.h0, x.t.prevRoot),
                         [Prepare(x.t, x.challenge, x.prep), Commit(x.commit), Finalize(x.finalize),
                          Prepare(y.t, y.challenge, y.prep), Commit(y.commit), Emit]);
            && |v.exports| == 1 && Index(v.exports[0]) == 2 && v.exports[0].transition.prevRoot == x.t.nextRoot
            && v.skipped == {1} && !Contiguous(v)
  {
    hide Next;
    var w := Init(id, id.h0, x.t.prevRoot);
    var first := [Prepare(x.t, x.challenge, x.prep), Commit(x.commit), Finalize(x.finalize)];
    var second := [Prepare(y.t, y.challenge, y.prep), Commit(y.commit), Emit];
    assert [x, y][1..] == [y];
    RunConcat(o, w, first, second);
    RunThree(o, w, first[0], first[1], first[2]);
    var u := Run(o, w, first);
    FirstDropped(o, id, x);
    RunThree(o, u, second[0], second[1], second[2]);
    SecondEmitted(o, u, y);
    var v := Run(o, u, second);
    assert first + second == [first[0], first[1], first[2], second[0], second[1], second[2]];
    assert ExportedIndex(v, 2);
    assert !ExportedIndex(v, 1);
  }

  lemma FirstDropped(o: Hashes, id: Identity, x: Transfer)
    requires id.h0 >= 1 && Faultless(x) && x.t.anchorCounter == 0 && x.t.nextAnchorCounter == 1
    ensures var w := Init(id, id.h0, x.t.prevRoot);
            var u := Next(o, Next(o, Next(o, w, Prepare(x.t, x.challenge, x.prep)), Commit(x.commit)),
                          Finalize(x.finalize));
            && u.dev.id == id && u.dev.h == id.h0 - 1 && u.dev.active == Active(x.t.nextRoot, 1, Ready, NoRecord)
            && u.exports == [] && u.skipped == {1}
  {
    hide PrepareStep, CommitStep, PrepareCheck, CommitCheck;
    CommitDelivers(o, Init(id, id.h0, x.t.prevRoot), x.t, x.challenge, x.prep, x.commit);
  }

  lemma SecondEmitted(o: Hashes, u: World, y: Transfer)
    requires Settled(u.dev) && Follows(u.dev, y.t) && u.dev.h > 0 && Faultless(y) && u.exports == []
    ensures var v := Next(o, Next(o, Next(o, u, Prepare(y.t, y.challenge, y.prep)), Commit(y.commit)), Emit);
            |v.exports| == 1 && v.exports[0].transition == y.t && v.skipped == u.skipped
  {
    hide PrepareStep, CommitStep, PrepareCheck, CommitCheck;
    CommitDelivers(o, u, y.t, y.challenge, y.prep, y.commit);
  }
}
