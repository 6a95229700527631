/** The request dispatcher of the secure core (`service.rs`). */
module Service {
  import opened Util
  import opened Hashing
  import opened RootAdvance
  import opened DeviceModel
  import opened Protocol
  import opened Proto
  import Anchor

  const NONE: u32 := 0
  const WRONG_STATE: u32 := 1
  const PREV_ROOT_MISMATCH: u32 := 2
  const INDEX_MISMATCH: u32 := 3
  const COUNTER_MISMATCH: u32 := 4
  const WITNESS_KEY_LOST: u32 := 5
  const COUNTER_EXHAUSTED: u32 := 6
  const NOT_COMMITTED: u32 := 7
  const TROPIC: u32 := 8
  const BAD_PROTO: u32 := 100
  const MISSING_FIELD: u32 := 101
  const BAD_OP: u32 := 102
  const FRAME_TOO_LARGE: u32 := 103

  const MAX_FRAME_LEN := 64 * 1024

  const OP_PREPARE := 1
  const OP_COMMIT := 2
  const OP_EMIT := 3
  const OP_FINALIZE := 4
  const OP_STATUS := 5
  const OP_CANCEL := 6

  type i32 = x: int | -0x8000_0000 <= x < 0x8000_0000

  datatype Request = Request(op: i32, transition: Option<TransitionPackage>, receiverChallenge: Bytes)

  datatype Response = Response(
    op: i32,
    ok: bool,
    error: u32,
    release: Option<ReleaseMessage>,
    activeRoot: Bytes,
    activeIndex: u64,
    status: u32)

  function ApplianceCode(e: ApplianceError): u32 {
    match e
    case WrongState => WRONG_STATE
    case PrevRootMismatch => PREV_ROOT_MISMATCH
    case IndexMismatch => INDEX_MISMATCH
    case CounterMismatch => COUNTER_MISMATCH
    case WitnessKeyLost => WITNESS_KEY_LOST
    case CounterExhausted => COUNTER_EXHAUSTED
    case NotCommitted => NOT_COMMITTED
    case Chip(_) => TROPIC
  }

  function ProtoCode(e: ProtoError): u32 {
    match e
    case MissingField => MISSING_FIELD
    case BadOp => BAD_OP
    case _ => BAD_PROTO
  }

  function StatusCode(s: Status): u32 {
    match s case Ready => 0 case Prepared => 1 case Committed => 2
  }

  function Succeed(op: i32): Response { Response(op, true, NONE, None, [], 0, 0) }

  function Fail(op: i32, code: u32): Response { Response(op, false, code, None, [], 0, 0) }

  /** The response to a call; none when power was lost. */
  function Answer<T>(op: i32, reply: Reply<T>, done: Response): Option<Response> {
    match reply
    case Done(_) => Some(done)
    case Failed(e) => Some(Fail(op, ApplianceCode(e)))
    case PowerLost => None
  }

  /** The transition and challenge of a prepare request, or the error code. */
  function PrepareRequest(req: Request): Result<(Transition, Digest), u32> {
    if req.transition.None? then Err(MISSING_FIELD) else
    match ToOwnedTransition(req.transition.value)
    case Err(e) => Err(ProtoCode(e))
    case Ok(t) =>
      match Arr32(req.receiverChallenge)
      case Err(e) => Err(ProtoCode(e))
      case Ok(challenge) => Ok((t, challenge))
  }

  function DispatchStep(o: Hashes, d: Device, req: Request, env: Env): (Device, Option<Response>) {
    var op := req.op;
    if op == OP_PREPARE then
      (match PrepareRequest(req)
       case Err(code) => (d, Some(Fail(op, code)))
       case Ok((t, challenge)) =>
         var (e, reply) := PrepareStep(o, d, t, challenge, env);
         (e, Answer(op, reply, Succeed(op))))
    else if op == OP_COMMIT then
      var (e, reply) := CommitStep(o, d, env);
      (e, Answer(op, reply, Succeed(op)))
    else if op == OP_EMIT then
      (d, match EmitStep(d)
          case Ok(r) => Some(Succeed(op).(release := Some(ReleaseToPb(r))))
          case Err(e) => Some(Fail(op, ApplianceCode(e))))
    else if op == OP_FINALIZE then
      var (e, reply) := FinalizeStep(d, env);
      (e, Answer(op, reply, Succeed(op).(activeRoot := if reply.Done? then reply.value else [])))
    else if op == OP_STATUS then
      (d, Some(Succeed(op).(activeRoot := d.active.root, activeIndex := d.active.u,
                            status := StatusCode(d.active.status))))
    else if op == OP_CANCEL then
      var (e, reply) := CancelStep(d, env);
      (e, Answer(op, reply, Succeed(op)))
    else (d, Some(Fail(op, BAD_OP)))
  }

  // ----- the dispatcher over the appliance object -----

  method Dispatch(app: Anchor.Appliance, req: Request, env: Env) returns (response: Option<Response>)
    requires app.Valid()
    modifies app`active, app.tropic
    ensures app.Valid()
    ensures (app.View(), response) == DispatchStep(app.hashes, old(app.View()), req, env)
  {
    hide PrepareStep, CommitStep, FinalizeStep, CancelStep, Coherent, ToOwnedTransition, ReleaseToPb;
    var op := req.op;
    if op == OP_PREPARE {
      if req.transition.None? {
        return Some(Fail(op, MISSING_FIELD));
      }
      var owned := ToOwnedTransition(req.transition.value);
      if owned.Err? {
        return Some(Fail(op, ProtoCode(owned.error)));
      }
      var challenge := Arr32(req.receiverChallenge);
      if challenge.Err? {
        return Some(Fail(op, ProtoCode(challenge.error)));
      }
      var reply := app.Prepare(owned.value, challenge.value, env);
      response := Answer(op, reply, Succeed(op));
    } else if op == OP_COMMIT {
      var reply := app.Commit(env);
      response := Answer(op, reply, Succeed(op));
    } else if op == OP_EMIT {
      var r := app.Emit();
      match r {
        case Ok(rel) => response := Some(Succeed(op).(release := Some(ReleaseToPb(rel))));
        case Err(e) => response := Some(Fail(op, ApplianceCode(e)));
      }
    } else if op == OP_FINALIZE {
      var reply := app.Finalize(env);
      response := Answer(op, reply, Succeed(op).(activeRoot := if reply.Done? then reply.value else []));
    } else if op == OP_STATUS {
      response := Some(Succeed(op).(activeRoot := app.active.root, activeIndex := app.active.u,
                                    status := StatusCode(app.active.status)));
    } else if op == OP_CANCEL {
      var reply := app.Cancel(env);
      response := Answer(op, reply, Succeed(op));
    } else {
      response := Some(Fail(op, BAD_OP));
    }
  }

  /** The generated message codec: any decoder of requests, any encoder of
      responses. */
  datatype Codec = Codec(decode: Bytes -> Option<Request>, encode: Response -> Bytes)

  function Encoded(codec: Codec, response: Option<Response>): Option<Bytes> {
    match response case Some(r) => Some(codec.encode(r)) case None => None
  }

  /** The single entry point: the frame cap, then decoding, then dispatch, and the
      response encoded. */
  function HandleStep(o: Hashes, d: Device, frame: Bytes, codec: Codec, env: Env): (Device, Option<Bytes>) {
    if |frame| > MAX_FRAME_LEN then (d, Some(codec.encode(Fail(0, FRAME_TOO_LARGE)))) else
    match codec.decode(frame)
    case Some(req) =>
      var (e, response) := DispatchStep(o, d, req, env);
      (e, Encoded(codec, response))
    case None => (d, Some(codec.encode(Fail(0, BAD_PROTO))))
  }

  method Handle(app: Anchor.Appliance, frame: Bytes, codec: Codec, env: Env) returns (response: Option<Bytes>)
    requires app.Valid()
    modifies app`active, app.tropic
    ensures app.Valid()
    ensures (app.View(), response) == HandleStep(app.hashes, old(app.View()), frame, codec, env)
  {
    hide DispatchStep, Coherent;
    if |frame| > MAX_FRAME_LEN {
      return Some(codec.encode(Fail(0, FRAME_TOO_LARGE)));
    }
    var req := codec.decode(frame);
    if req.None? {
      return Some(codec.encode(Fail(0, BAD_PROTO)));
    }
    var answer := Dispatch(app, req.value, env);
    response := Encoded(codec, answer);
  }

  // ----- requests are steps of the protocol -----

  /** The protocol step a request amounts to, if it reaches the appliance. */
  function StepOf(req: Request, env: Env): Option<Step> {
    if req.op == OP_PREPARE then
      match PrepareRequest(req)
      case Ok((t, challenge)) => Some(Prepare(t, challenge, env))
      case Err(_) => None
    else if req.op == OP_COMMIT then Some(Commit(env))
    else if req.op == OP_EMIT then Some(Emit)
    else if req.op == OP_FINALIZE then Some(Finalize(env))
    else if req.op == OP_CANCEL then Some(Cancel(env))
    else None
  }

  /** Hence everything proved of runs of steps holds of runs of requests; and what
      a request prepares is within the wire bounds. */
  lemma DispatchIsStep(o: Hashes, d: Device, req: Request, env: Env)
    ensures match StepOf(req, env)
            case Some(s) => DispatchStep(o, d, req, env).0 == DeviceStep(o, d, s) && FromWire(s)
            case None => DispatchStep(o, d, req, env).0 == d
  {
    hide PrepareStep, CommitStep, FinalizeStep, CancelStep, ToOwnedTransition;
    if req.op == OP_PREPARE && PrepareRequest(req).Ok? { TransitionReencodes(req.transition.value); }
  }

  /** What reaches a serving appliance: requests, outside counter moves, and
      reboots, which check the boundary and then recover. */
  datatype Input =
    | Call(req: Request, env: Env)
    | OutsideMove
    | Reboot(firmwareInvalid: bool, rmemoryInvalid: bool, env: Env)

  function InputStep(o: Hashes, d: Device, i: Input): Device {
    match i
    case Call(req, env) => DispatchStep(o, d, req, env).0
    case OutsideMove => DeviceStep(o, d, OutOfBand)
    case Reboot(f, r, env) => DeviceStep(o, DeviceStep(o, d, SetFlags(f, r)), Recover(env))
  }

  function InputRun(o: Hashes, d: Device, inputs: seq<Input>): Device
    decreases |inputs|
  {
    if |inputs| == 0 then d else InputRun(o, InputStep(o, d, inputs[0]), inputs[1..])
  }

  lemma {:induction false} InputRunCoherent(o: Hashes, d: Device, inputs: seq<Input>)
    requires Coherent(o, d) && RecordInBounds(d)
    ensures var e := InputRun(o, d, inputs); Coherent(o, e) && RecordInBounds(e) && e.id == d.id
    decreases |inputs|
  {
    hide Coherent, RecordInBounds, DispatchStep, DeviceStep, StepOf, FromWire;
    if |inputs| > 0 {
      var e := InputStep(o, d, inputs[0]);
      match inputs[0] {
        case Call(req, env) =>
          DispatchIsStep(o, d, req, env);
          if StepOf(req, env).Some? { StepSafe(o, d, StepOf(req, env).value); }
        case OutsideMove => StepSafe(o, d, OutOfBand);
        case Reboot(f, r, env) =>
          StepSafe(o, d, SetFlags(f, r));
          StepSafe(o, DeviceStep(o, d, SetFlags(f, r)), Recover(env));
      }
      InputRunCoherent(o, e, inputs[1..]);
    }
  }

  lemma StepSafe(o: Hashes, d: Device, s: Step)
    requires Coherent(o, d) && RecordInBounds(d) && (FromWire(s) || !s.Prepare?)
    ensures var e := DeviceStep(o, d, s); Coherent(o, e) && RecordInBounds(e) && e.id == d.id
  {
    hide Coherent, RecordInBounds, DeviceStep;
    StepCoherent(o, d, s);
    BoundsStep(o, d, s);
    IdFixed(o, d, s);
  }

  /** Every release in a response, after any sequence of requests and reboots,
      decodes at the receiver to a genuine release of this appliance. */
  lemma ResponsesDecode(o: Hashes, id: Identity, h: u32, root: Digest, inputs: seq<Input>, req: Request, env: Env)
    ensures var d := InputRun(o, New(id, h, root), inputs);
            var response := DispatchStep(o, d, req, env).1;
            response.Some? && response.value.release.Some? ==>
              var received := ToRelease(response.value.release.value);
              received.Ok? && Genuine(o, id, received.value) && EmitStep(d) == Ok(received.value)
  {
    hide InputRun, Genuine, SoundRecord, TransitionInBounds, ToRelease, ReleaseToPb, PrepareStep, CommitStep,
         FinalizeStep, CancelStep, PrepareRequest;
    NewCoherent(o, id, h, root);
    InputRunCoherent(o, New(id, h, root), inputs);
    var d := InputRun(o, New(id, h, root), inputs);
    if EmitStep(d).Ok? {
      var r := EmitStep(d).value;
      GenuineInBounds(o, id, r);
      DecodesExactlyInBounds(ReleaseToPb(r), r);
    }
  }

  // ----- failure atomicity -----

  /** A commit that passed its checks and stored its candidate, and whose counter
      update reported failure. */
  predicate CommitRefused(d: Device, req: Request, env: Env) {
    && req.op == OP_COMMIT && CommitCheck(d, env).Ok?
    && !CounterUpdate(Drop(d.h, env.drift), env.update).1
  }

  /** A failed response means that nothing changed, with the one exception of a
      refused commit, which leaves its unrecorded candidate behind. */
  lemma FailuresChangeNothing(o: Hashes, d: Device, req: Request, env: Env)
    requires DispatchStep(o, d, req, env).1.Some? && !DispatchStep(o, d, req, env).1.value.ok
    ensures var e := DispatchStep(o, d, req, env).0;
            if CommitRefused(d, req, env)
            then var p := CommitCheck(d, env).value;
                 e.active == Active(d.active.root, d.active.u, Committed, CommittedRec(Candidate(o, d, p)))
            else e == d
  {
    hide RecordOf, Candidate, ToOwnedTransition, ReleaseToPb;
  }

  /** The state after a refused commit. */
  predicate Suspended(d: Device) {
    d.active.status == Committed && d.active.record.CommittedRec? && !d.active.record.c.committed
  }

  /** From a refused commit on, no sequence of requests leaves the state (only
      recovery does), and every request but a status query fails. */
  lemma {:induction false} SuspendedUntilRecovery(o: Hashes, d: Device, inputs: seq<Input>, req: Request, env: Env)
    requires Suspended(d) && forall i :: 0 <= i < |inputs| ==> !inputs[i].Reboot?
    ensures var e := InputRun(o, d, inputs);
            var response := DispatchStep(o, e, req, env).1;
            && e.active == d.active
            && response.Some? && response.value.release.None? && (response.value.ok <==> req.op == OP_STATUS)
    decreases |inputs|
  {
    if |inputs| > 0 {
      SuspendedStep(o, d, inputs[0]);
      assert forall i :: 0 <= i < |inputs[1..]| ==> inputs[1..][i] == inputs[i + 1];
      SuspendedUntilRecovery(o, InputStep(o, d, inputs[0]), inputs[1..], req, env);
    } else {
      SuspendedRefuses(o, d, req, env);
    }
  }

  lemma SuspendedStep(o: Hashes, d: Device, i: Input)
    requires Suspended(d) && !i.Reboot?
    ensures InputStep(o, d, i).active == d.active
  {
    hide RecordOf, Candidate, ToOwnedTransition, ReleaseToPb;
  }

  lemma SuspendedRefuses(o: Hashes, d: Device, req: Request, env: Env)
    requires Suspended(d)
    ensures var response := DispatchStep(o, d, req, env).1;
            response.Some? && response.value.release.None? && (response.value.ok <==> req.op == OP_STATUS)
  {
    hide RecordOf, Candidate, ToOwnedTransition, ReleaseToPb;
  }
}
