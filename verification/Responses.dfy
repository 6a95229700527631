/** What a response tells the host: `ok` if and only if the operation happened, and
    otherwise, by its error code, which condition failed first. */
module Responses {
  import opened Util
  import opened Hashing
  import opened RootAdvance
  import opened DeviceModel
  import opened Protocol
  import opened Recovery
  import opened Proto
  import opened Answers
  import opened Service

  /** Whatever the request: the operation is echoed, `ok` means no error, and the
      other fields are set only by the operations they belong to. */
  lemma ResponseShape(o: Hashes, d: Device, req: Request, env: Env)
    ensures var response := DispatchStep(o, d, req, env).1;
            response.Some? ==>
              var r := response.value;
              && r.op == req.op && (r.ok <==> r.error == 0)
              && (r.release.Some? ==> r.op == 3 && r.ok)
              && (r.activeRoot != [] ==> r.op in {4, 5} && r.ok)
              && (r.activeIndex != 0 || r.status != 0 ==> r.op == 5 && r.ok)
  {
    hide PrepareStep, CommitStep, EmitStep, FinalizeStep, CancelStep, ToOwnedTransition, ReleaseToPb;
  }

  /** A prepare request is well formed exactly when it encodes an in-bounds
      transition and carries a 32-byte challenge; otherwise it is refused as
      lacking the transition, or as malformed. */
  lemma PrepareRequestExactly(req: Request, t: Transition, challenge: Digest)
    ensures PrepareRequest(req) == Ok((t, challenge)) <==>
            && req.transition == Some(TransitionToPb(t)) && TransitionInBounds(t)
            && req.receiverChallenge == challenge
    ensures PrepareRequest(req) == Err(101) <==> req.transition.None?
    ensures PrepareRequest(req).Err? ==> PrepareRequest(req).error in {100, 101}
  {
    hide ToOwnedTransition;
    TransitionRoundTrip(t);
    if req.transition.Some? {
      if ToOwnedTransition(req.transition.value).Ok? {
        TransitionReencodes(req.transition.value);
      } else {
        TransitionOnlyLengths(req.transition.value);
      }
    }
  }

  /** Prepare: `ok` exactly when the appliance is Ready for this transition at the
      live index and the chip answers; then the transfer and its challenge are
      stored. The code names the first condition that fails. */
  lemma PrepareResponse(o: Hashes, d: Device, req: Request, env: Env)
    requires req.op == 1
    ensures var (e, response) := DispatchStep(o, d, req, env);
            match PrepareRequest(req)
            case Err(code) => e == d && response == Some(Response(1, false, code, None, [], 0, 0))
            case Ok((t, challenge)) =>
              response.Some? ==>
                var r, w := response.value, ChipAnswer(o, d, t, challenge, env);
                && (r.ok <==> Asked(d, t) && AtIndex(d, env) && w.Ok?)
                && (r.ok ==>
                      && e.active.status == Prepared && e.active.record.PreparedRec?
                      && e.active.record.p.txn == t && e.active.record.p.receiverChallenge == challenge)
                && (!r.ok ==> e == d)
                && (r.error == 1 <==> d.active.status != Ready)
                && (r.error == 2 <==> d.active.status == Ready && t.prevRoot != d.active.root)
                && (r.error == 3 <==> d.active.status == Ready && t.prevRoot == d.active.root && !Follows(d, t))
                && (r.error == 4 <==> Asked(d, t) && env.read.None? && d.active.u + d.h != d.id.h0)
                && (r.error == 8 <==> Asked(d, t) && (env.read.Some? || (AtIndex(d, env) && w.Err?)))
  {
    hide PrepareStep, ToOwnedTransition, Binding.X;
    match PrepareRequest(req)
    case Err(_) =>
    case Ok((t, challenge)) => PrepareReplies(o, d, t, challenge, env);
  }

  lemma PrepareReplies(o: Hashes, d: Device, t: Transition, challenge: Digest, env: Env)
    ensures var (e, reply) := PrepareStep(o, d, t, challenge, env);
            var w := ChipAnswer(o, d, t, challenge, env);
            && (reply.Done? <==> Asked(d, t) && AtIndex(d, env) && w.Ok? && !env.LostAfter(0) && !env.LostAfter(1))
            && (reply.PowerLost? <==>
                  Asked(d, t) && AtIndex(d, env) && w.Ok? && (env.LostAfter(0) || env.LostAfter(1)))
            && (reply.Done? ==>
                  && e.active.status == Prepared && e.active.record.PreparedRec?
                  && e.active.record.p.txn == t && e.active.record.p.receiverChallenge == challenge)
            && (reply.Failed? ==> e == d)
            && (reply.Failed? ==>
                  match reply.error
                  case WrongState => d.active.status != Ready
                  case PrevRootMismatch => d.active.status == Ready && t.prevRoot != d.active.root
                  case IndexMismatch => d.active.status == Ready && t.prevRoot == d.active.root && !Follows(d, t)
                  case CounterMismatch => Asked(d, t) && env.read.None? && d.active.u + d.h != d.id.h0
                  case Chip(_) => Asked(d, t) && (env.read.Some? || (AtIndex(d, env) && w.Err?))
                  case _ => false)
  {
    hide TransitionDigestOf, RecordOf;
    if PrepareCheck(o, d, t, challenge, env).Ok? { RecordTxn(o, PrepareCheck(o, d, t, challenge, env).value); }
  }

  /** Commit: `ok` exactly when a release is pending afterwards that was not before;
      it is then the prepared transfer's, one counter move later. */
  lemma CommitResponse(o: Hashes, d: Device, req: Request, env: Env)
    requires req.op == 2
    ensures var (e, response) := DispatchStep(o, d, req, env);
            var c := d.active.record;
            response.Some? ==>
              var r := response.value;
              && (r.ok <==> Pending(d).None? && Pending(e).Some?)
              && (r.ok ==>
                    && c.PreparedRec? && Pending(e).value.transition == c.p.txn
                    && e.active.u == c.p.txn.nextAnchorCounter && e.h == d.h - (env.drift + 1))
              && (r.error == 1 <==> !c.PreparedRec?)
              && (r.error == 5 <==> c.PreparedRec? && |c.p.skHw| == 0)
              && (r.error == 8 <==>
                    c.PreparedRec? && |c.p.skHw| > 0 && c.p.txn.prevRoot == d.active.root && env.read.Some?)
              && (r.error == 2 <==> c.PreparedRec? && |c.p.skHw| > 0 && c.p.txn.prevRoot != d.active.root)
              && (r.error == 4 <==>
                    && c.PreparedRec? && |c.p.skHw| > 0 && c.p.txn.prevRoot == d.active.root && env.read.None?
                    && d.h > 0 && c.p.txn.anchorCounter + d.h != d.id.h0)
              && r.error in {0, 1, 2, 4, 5, 6, 8}
  {
    hide CommitStep;
    CommitReplies(o, d, env);
    CommitAnswers(o, d, env);
  }

  lemma CommitReplies(o: Hashes, d: Device, env: Env)
    ensures var (e, reply) := CommitStep(o, d, env);
            && (!reply.PowerLost? ==> (reply.Done? <==> Pending(d).None? && Pending(e).Some?))
            && (reply.Done? ==>
                  && d.active.record.PreparedRec? && Pending(e).value.transition == d.active.record.p.txn
                  && e.active.u == d.active.record.p.txn.nextAnchorCounter && e.h == d.h - (env.drift + 1))
            && (reply.Failed? ==> !reply.error.IndexMismatch? && !reply.error.NotCommitted?)
  {
    if CommitCheck(d, env).Ok? {
      var p := CommitCheck(d, env).value;
      CandidateTransition(o, d, p);
    }
    hide ReleaseOf;
  }

  lemma CandidateTransition(o: Hashes, d: Device, p: PreparedRecord)
    requires |p.skHw| == 32 && d.h > 0
    ensures ReleaseOf(o, d, p).transition == p.txn
  {
  }

  /** Emit: `ok` exactly when a release is pending, and it is the one returned. */
  lemma EmitResponse(o: Hashes, d: Device, req: Request, env: Env)
    requires req.op == 3
    ensures DispatchStep(o, d, req, env) ==
            (d, Some(match Pending(d)
                     case Some(r) => Response(3, true, 0, Some(ReleaseToPb(r)), [], 0, 0)
                     case None => Response(3, false, 7, None, [], 0, 0)))
  {
    hide ReleaseToPb;
    EmitAnswers(d);
  }

  /** Finalize: `ok` exactly when the successor root was installed, and it is the
      root returned. */
  lemma FinalizeResponse(o: Hashes, d: Device, req: Request, env: Env)
    requires req.op == 4
    ensures var (e, response) := DispatchStep(o, d, req, env);
            && (response.None? ==> e == d)
            && (response.Some? ==>
                  var r := response.value;
                  && (r.ok <==> Finalizes(d, Finalize(env)))
                  && (r.ok <==> Pending(d).Some? && AtIndex(d, env))
                  && (r.ok ==>
                        && r.activeRoot == e.active.root == d.active.record.c.nextRoot
                        && e == d.(active := Active(r.activeRoot, d.active.u, Ready, NoRecord)))
                  && (!r.ok ==> e == d && r.activeRoot == [])
                  && (r.error == 7 <==> Pending(d).None?)
                  && (r.error == 8 <==> Pending(d).Some? && env.read.Some?)
                  && (r.error == 4 <==> Pending(d).Some? && env.read.None? && d.active.u + d.h != d.id.h0))
  {
    FinalizeAnswers(d, env);
  }

  /** Cancel: `ok` exactly when there was a prepared record, and it is gone. */
  lemma CancelResponse(o: Hashes, d: Device, req: Request, env: Env)
    requires req.op == 6
    ensures var (e, response) := DispatchStep(o, d, req, env);
            response.Some? ==>
              var r := response.value;
              && (r.ok <==> d.active.record.PreparedRec?)
              && e == (if r.ok then d.(active := Active(d.active.root, d.active.u, Ready, NoRecord)) else d)
              && r.error == if r.ok then 0 else 1
  {
    hide CancelStep;
    CancelAnswers(d, env);
  }

  /** Status: the active root and index, and the state as 0, 1 or 2. Any operation
      outside 1 to 6 is refused. Neither changes anything. */
  lemma StatusResponse(o: Hashes, d: Device, req: Request, env: Env)
    requires req.op !in {1, 2, 3, 4, 6}
    ensures var n := match d.active.status case Ready => 0 case Prepared => 1 case Committed => 2;
            DispatchStep(o, d, req, env) ==
            (d, Some(if req.op == 5 then Response(5, true, 0, None, d.active.root, d.active.u, n)
                     else Response(req.op, false, 102, None, [], 0, 0)))
  {
  }

  /** Frames: those over 65536 bytes and those that do not decode are answered
      without touching the appliance; every other frame is dispatched. */
  lemma FrameAnswers(o: Hashes, d: Device, frame: Bytes, codec: Codec, env: Env)
    ensures var (e, bytes) := HandleStep(o, d, frame, codec, env);
            if |frame| > 65536 then e == d && bytes == Some(codec.encode(Response(0, false, 103, None, [], 0, 0)))
            else if codec.decode(frame).None?
            then e == d && bytes == Some(codec.encode(Response(0, false, 100, None, [], 0, 0)))
            else var (f, response) := DispatchStep(o, d, codec.decode(frame).value, env);
                 e == f && (bytes.Some? <==> response.Some?)
                 && (response.Some? ==> bytes.value == codec.encode(response.value))
  {
    hide PrepareStep, CommitStep, FinalizeStep, CancelStep, ReleaseToPb, ToOwnedTransition;
  }
}
