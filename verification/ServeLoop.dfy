/** The serve loop driving the appliance: every complete frame is handled as soon as
    it is in the buffer. */
module ServeLoop {
  import opened Util
  import opened Hashing
  import opened DeviceModel
  import opened Frames
  import opened Service

  /** `lost`: power failed during a request; the loop and its buffer are gone. */
  datatype Session = Session(dev: Device, responses: seq<Bytes>, lost: bool)

  /** What a frame meets: how often the counter was moved from outside since the
      frame before, and the environment of the call. */
  datatype Meeting = Meeting(moves: nat, env: Env)

  /** Frame number `k` of the session meets `world(k)`. */
  type Surroundings = nat -> Meeting

  function HandleFrame(o: Hashes, s: Session, frame: Bytes, codec: Codec, world: Surroundings): Session {
    if s.lost then s else
    var m := world(|s.responses|);
    var (e, response) := HandleStep(o, s.dev.(h := Drop(s.dev.h, m.moves)), frame, codec, m.env);
    match response
    case Some(r) => Session(e, s.responses + [r], false)
    case None => Session(e, s.responses, true)
  }

  function HandleAll(o: Hashes, s: Session, frames: seq<Bytes>, codec: Codec, world: Surroundings): Session
    decreases |frames|
  {
    if |frames| == 0 then s else HandleAll(o, HandleFrame(o, s, frames[0], codec, world), frames[1..], codec, world)
  }

  /** The loop: buffer a chunk, handle what it completes, read on. */
  function ServeChunks(o: Hashes, s: Session, rx: Bytes, chunks: seq<Bytes>, codec: Codec, world: Surroundings)
    : Session
    decreases |chunks|
  {
    if |chunks| == 0 || s.lost then s else
    var (frames, rest) := Extract(Append(rx, chunks[0]));
    ServeChunks(o, HandleAll(o, s, frames, codec, world), rest, chunks[1..], codec, world)
  }

  lemma {:induction false} HandleConcat(o: Hashes, s: Session, a: seq<Bytes>, b: seq<Bytes>, codec: Codec,
                                        world: Surroundings)
    ensures HandleAll(o, s, a + b, codec, world) == HandleAll(o, HandleAll(o, s, a, codec, world), b, codec, world)
    decreases |a|
  {
    hide HandleFrame;
    if |a| == 0 {
      assert a + b == b;
    } else {
      assert (a + b)[0] == a[0] && (a + b)[1..] == a[1..] + b;
      HandleConcat(o, HandleFrame(o, s, a[0], codec, world), a[1..], b, codec, world);
    }
  }

  lemma {:induction false} LostStays(o: Hashes, s: Session, frames: seq<Bytes>, codec: Codec, world: Surroundings)
    requires s.lost
    ensures HandleAll(o, s, frames, codec, world) == s
    decreases |frames|
  {
    hide HandleStep;
    if |frames| > 0 { LostStays(o, s, frames[1..], codec, world); }
  }

  /** Handling frames as they complete is handling the frames of the whole input. */
  lemma {:induction false} ServeHandles(o: Hashes, s: Session, rx: Bytes, chunks: seq<Bytes>, codec: Codec,
                                        world: Surroundings)
    ensures ServeChunks(o, s, rx, chunks, codec, world) == HandleAll(o, s, Serve(rx, chunks).0, codec, world)
    decreases |chunks|
  {
    hide Extract, Append, HandleFrame;
    if s.lost {
      LostStays(o, s, Serve(rx, chunks).0, codec, world);
    } else if |chunks| > 0 {
      var (frames, rest) := Extract(Append(rx, chunks[0]));
      var t := HandleAll(o, s, frames, codec, world);
      ServeHandles(o, t, rest, chunks[1..], codec, world);
      HandleConcat(o, s, frames, Serve(rest, chunks[1..]).0, codec, world);
    }
  }

  // ----- frames as requests -----

  function Outside(k: nat): (moves: seq<Input>)
    ensures |moves| == k
  {
    seq(k, _ => OutsideMove)
  }

  /** What frame number `k` amounts to: the outside moves before it, and the request
      it decodes to, if it does. */
  function InputsOf(frame: Bytes, k: nat, codec: Codec, world: Surroundings): seq<Input> {
    Outside(world(k).moves) + match codec.decode(frame) case Some(req) => [Call(req, world(k).env)] case None => []
  }

  function Inputs(frames: seq<Bytes>, k: nat, codec: Codec, world: Surroundings): seq<Input>
    decreases |frames|
  {
    if |frames| == 0 then [] else InputsOf(frames[0], k, codec, world) + Inputs(frames[1..], k + 1, codec, world)
  }

  lemma {:induction false} InputRunConcat(o: Hashes, d: Device, a: seq<Input>, b: seq<Input>)
    ensures InputRun(o, d, a + b) == InputRun(o, InputRun(o, d, a), b)
    decreases |a|
  {
    hide InputStep;
    if |a| == 0 {
      assert a + b == b;
    } else {
      assert (a + b)[0] == a[0] && (a + b)[1..] == a[1..] + b;
      InputRunConcat(o, InputStep(o, d, a[0]), a[1..], b);
    }
  }

  lemma {:induction false} OutsideRun(o: Hashes, d: Device, k: nat)
    ensures InputRun(o, d, Outside(k)) == d.(h := Drop(d.h, k))
    decreases k
  {
    hide DispatchStep;
    if k > 0 {
      assert Outside(k)[1..] == Outside(k - 1);
      assert InputStep(o, d, OutsideMove) == d.(h := Drop(d.h, 1));
      OutsideRun(o, d.(h := Drop(d.h, 1)), k - 1);
    }
  }

  lemma InputRunOne(o: Hashes, d: Device, i: Input)
    ensures InputRun(o, d, [i]) == InputStep(o, d, i)
  {
    assert [i][1..] == [];
  }

  /** A frame within the receive cap does to the device what its inputs do, also
      when power is lost meanwhile. */
  lemma FrameIsInputs(o: Hashes, s: Session, frame: Bytes, codec: Codec, world: Surroundings)
    requires |frame| <= MAX_RX_FRAME && !s.lost
    ensures var t := HandleFrame(o, s, frame, codec, world);
            && t.dev == InputRun(o, s.dev, InputsOf(frame, |s.responses|, codec, world))
            && |t.responses| == |s.responses| + if t.lost then 0 else 1
  {
    hide InputRun, DispatchStep;
    var m := world(|s.responses|);
    OutsideRun(o, s.dev, m.moves);
    var d := s.dev.(h := Drop(s.dev.h, m.moves));
    match codec.decode(frame)
    case Some(req) =>
      InputRunConcat(o, s.dev, Outside(m.moves), [Call(req, m.env)]);
      InputRunOne(o, d, Call(req, m.env));
    case None => assert Outside(m.moves) + [] == Outside(m.moves);
  }

  /** The frames that were handled: all of them, or those up to the one during
      which power was lost. */
  function Handled(t: Session): nat {
    |t.responses| + if t.lost then 1 else 0
  }

  lemma {:induction false} FramesAreRequests(o: Hashes, s: Session, frames: seq<Bytes>, codec: Codec,
                                             world: Surroundings)
    requires Short(frames, MAX_RX_FRAME) && !s.lost
    ensures var t := HandleAll(o, s, frames, codec, world);
            var n := Handled(t) - |s.responses|;
            && 0 <= n <= |frames| && (!t.lost ==> n == |frames|)
            && t.dev == InputRun(o, s.dev, Inputs(frames[..n], |s.responses|, codec, world))
    decreases |frames|
  {
    hide HandleFrame, InputRun, InputsOf;
    if |frames| == 0 {
      NoInputs(o, s.dev);
    } else {
      var k, t := |s.responses|, HandleFrame(o, s, frames[0], codec, world);
      ShortTail(frames, MAX_RX_FRAME);
      FrameIsInputs(o, s, frames[0], codec, world);
      if t.lost {
        LostStays(o, t, frames[1..], codec, world);
        assert frames[..1] == [frames[0]] && frames[..1][1..] == [];
        assert Inputs(frames[..1], k, codec, world) == InputsOf(frames[0], k, codec, world) + [];
        assert InputsOf(frames[0], k, codec, world) + [] == InputsOf(frames[0], k, codec, world);
      } else {
        FramesAreRequests(o, t, frames[1..], codec, world);
        var n := Handled(HandleAll(o, s, frames, codec, world)) - k;
        assert frames[..n][0] == frames[0] && frames[..n][1..] == frames[1..][..n - 1];
        InputRunConcat(o, s.dev, InputsOf(frames[0], k, codec, world),
                       Inputs(frames[1..][..n - 1], k + 1, codec, world));
      }
    }
  }

  lemma NoInputs(o: Hashes, d: Device)
    ensures InputRun(o, d, []) == d
  {
  }

  lemma ShortTail(frames: seq<Bytes>, cap: nat)
    requires |frames| > 0 && Short(frames, cap)
    ensures |frames[0]| <= cap && Short(frames[1..], cap)
  {
  }

  /** From bytes to the appliance. However the stream of short frames is cut into
      chunks, whatever the requests do, and whoever moves the counter in between:
      the loop handles exactly the sent frames, in order, one response each, up to
      a power loss; the appliance ends where the decoded requests take it, the
      interrupted one included. */
  lemma StreamDrivesAppliance(o: Hashes, d: Device, fs: seq<Bytes>, chunks: seq<Bytes>, codec: Codec,
                              world: Surroundings)
    requires Chunked(chunks) && Flatten(chunks) == Stream(fs) && Short(fs, MAX_RX_FRAME - 63)
    ensures var s := ServeChunks(o, Session(d, [], false), [], chunks, codec, world);
            && s == HandleAll(o, Session(d, [], false), fs, codec, world)
            && Handled(s) <= |fs| && (!s.lost ==> |s.responses| == |fs|)
            && s.dev == InputRun(o, d, Inputs(fs[..Handled(s)], 0, codec, world))
  {
    hide Serve, ServeChunks, HandleAll, Inputs, InputRun;
    ShortFramesArrive(fs, chunks);
    ServeHandles(o, Session(d, [], false), [], chunks, codec, world);
    ShortIsShorter(fs, MAX_RX_FRAME - 63, MAX_RX_FRAME);
    FramesAreRequests(o, Session(d, [], false), fs, codec, world);
  }
}
