/** Frame reassembly in the firmware's serve loop: little-endian 32-bit length
    prefixes over a byte stream that arrives in chunks of at most 64 bytes. */
module Frames {
  import opened Util

  const MAX_RX_FRAME := 8 * 1024
  const CHUNK := 64

  // ----- the receive buffer -----

  /** Every complete frame at the front of the buffer, and what stays buffered. A
      length beyond the cap clears the buffer. */
  function Extract(rx: Bytes): (r: (seq<Bytes>, Bytes))
    ensures |r.1| <= |rx|
    decreases |rx|
  {
    if |rx| < 4 then ([], rx) else
    var len := FromLe(rx[..4]);
    if len > MAX_RX_FRAME then ([], []) else
    if |rx| < 4 + len then ([], rx) else
    var (frames, rest) := Extract(rx[4 + len..]);
    ([rx[4..4 + len]] + frames, rest)
  }

  lemma ExtractStep(rx: Bytes)
    requires |rx| >= 4
    ensures var len := FromLe(rx[..4]);
            if len > MAX_RX_FRAME then Extract(rx) == ([], [])
            else if |rx| < 4 + len then Extract(rx) == ([], rx)
            else Extract(rx) == ([rx[4..4 + len]] + Extract(rx[4 + len..]).0, Extract(rx[4 + len..]).1)
  {
  }

  /** The buffer after a chunk arrives; a chunk that would overfill it clears it and
      is dropped. */
  function Append(rx: Bytes, chunk: Bytes): Bytes {
    if |rx| + |chunk| > MAX_RX_FRAME + 4 then [] else rx + chunk
  }

  function Serve(rx: Bytes, chunks: seq<Bytes>): (seq<Bytes>, Bytes)
    decreases |chunks|
  {
    if |chunks| == 0 then ([], rx) else
    var (frames, rest) := Extract(Append(rx, chunks[0]));
    var (more, last) := Serve(rest, chunks[1..]);
    (frames + more, last)
  }

  lemma MoveOver(a: seq<Bytes>, b: seq<Bytes>, f: Bytes, c: seq<Bytes>)
    ensures b + ([f] + c) == (b + [f]) + c && (a + b) + [f] == a + (b + [f])
  {
  }

  /** The serve loop's state: the buffer, and the frames handed to the secure core. */
  class Server {
    var rx: Bytes
    var served: seq<Bytes>

    ghost predicate Valid()
      reads this
    {
      |rx| <= MAX_RX_FRAME + 4
    }

    constructor ()
      ensures Valid() && rx == [] && served == []
    {
      rx, served := [], [];
    }

    /** One read of `n > 0` bytes: buffer them, then serve every complete frame. */
    method OnChunk(chunk: Bytes)
      requires Valid() && 0 < |chunk| <= CHUNK
      modifies this
      ensures Valid()
      ensures var (frames, rest) := Extract(Append(old(rx), chunk));
              rx == rest && served == old(served) + frames
    {
      hide FromLe;
      if |rx| + |chunk| > MAX_RX_FRAME + 4 {
        rx := [];
      } else {
        rx := rx + chunk;
      }
      ghost var start, done: seq<Bytes> := Extract(rx), [];
      while |rx| >= 4
        invariant Valid()
        invariant served == old(served) + done
        invariant start.0 == done + Extract(rx).0 && start.1 == Extract(rx).1
        decreases |rx|
      {
        hide Extract;
        var len := FromLe(rx[..4]);
        ExtractStep(rx);
        if len > MAX_RX_FRAME {
          rx := [];
          break;
        }
        if |rx| < 4 + len {
          break;
        }
        var frame := rx[4..4 + len];
        MoveOver(old(served), done, frame, Extract(rx[4 + len..]).0);
        served, done := served + [frame], done + [frame];
        rx := rx[4 + len..];
      }
    }

    /** The loop over everything read so far. */
    method ServeAll(chunks: seq<Bytes>)
      requires Valid() && forall k :: 0 <= k < |chunks| ==> 0 < |chunks[k]| <= CHUNK
      modifies this
      ensures Valid()
      ensures served == old(served) + Serve(old(rx), chunks).0 && rx == Serve(old(rx), chunks).1
    {
      for k := 0 to |chunks|
        invariant Valid()
        invariant old(served) + Serve(old(rx), chunks).0 == served + Serve(rx, chunks[k..]).0
        invariant Serve(old(rx), chunks).1 == Serve(rx, chunks[k..]).1
      {
        hide Extract, Append;
        assert chunks[k..][0] == chunks[k] && chunks[k..][1..] == chunks[k + 1..];
        var (frames, rest) := Extract(Append(rx, chunks[k]));
        assert served + Serve(rx, chunks[k..]).0 == (served + frames) + Serve(rest, chunks[k + 1..]).0;
        OnChunk(chunks[k]);
      }
    }
  }

  // ----- what the sender means -----

  function Frame(f: Bytes): Bytes { Le(|f|, 4) + f }

  function Stream(fs: seq<Bytes>): Bytes {
    if |fs| == 0 then [] else Frame(fs[0]) + Stream(fs[1..])
  }

  /** Splitting a whole stream, without buffer or cap: the reference. */
  function Split(s: Bytes): (seq<Bytes>, Bytes)
    decreases |s|
  {
    if |s| < 4 || |s| < 4 + FromLe(s[..4]) then ([], s) else
    var len := FromLe(s[..4]);
    var (frames, rest) := Split(s[4 + len..]);
    ([s[4..4 + len]] + frames, rest)
  }

  predicate Short(fs: seq<Bytes>, cap: nat) { forall i :: 0 <= i < |fs| ==> |fs[i]| <= cap }

  predicate Chunked(chunks: seq<Bytes>) { forall k :: 0 <= k < |chunks| ==> 0 < |chunks[k]| <= CHUNK }

  /** No chunk overfills the buffer, if the buffer holds just the unfinished frame:
      a condition on the sent bytes and the places where they are cut. */
  predicate NoOverflow(sent: Bytes, chunks: seq<Bytes>)
    decreases |chunks|
  {
    |chunks| == 0 ||
    (|Split(sent).1| + |chunks[0]| <= MAX_RX_FRAME + 4 && NoOverflow(sent + chunks[0], chunks[1..]))
  }

  // ----- the splitter -----

  lemma FrameHeader(f: Bytes, rest: Bytes)
    requires |f| < 0x1_0000_0000
    ensures var s := Frame(f) + rest;
            FromLe(s[..4]) == |f| && s[4..4 + |f|] == f && s[4 + |f|..] == rest
  {
    LePow();
    LeKeepsLowBytes(|f|, 4);
    assert (Frame(f) + rest)[..4] == Le(|f|, 4);
  }

  lemma {:induction false} SplitStream(fs: seq<Bytes>)
    requires Short(fs, 0xffff_ffff)
    ensures Split(Stream(fs)) == (fs, [])
    decreases |fs|
  {
    if |fs| > 0 {
      FrameHeader(fs[0], Stream(fs[1..]));
      SplitStream(fs[1..]);
      assert [fs[0]] + fs[1..] == fs;
    }
  }

  /** Splitting may stop anywhere and go on from what is left. */
  lemma {:induction false} SplitMore(s: Bytes, c: Bytes)
    ensures var (f, r) := Split(s); var (g, q) := Split(r + c); Split(s + c) == (f + g, q)
    decreases |s|
  {
    hide FromLe;
    if |s| < 4 || |s| < 4 + FromLe(s[..4]) {
      assert [] + Split(s + c).0 == Split(s + c).0;
    } else {
      var len := FromLe(s[..4]);
      assert (s + c)[..4] == s[..4] && (s + c)[4..4 + len] == s[4..4 + len] && (s + c)[4 + len..] == s[4 + len..] + c;
      SplitMore(s[4 + len..], c);
      var (f, r) := Split(s[4 + len..]);
      var (g, q) := Split(r + c);
      assert [s[4..4 + len]] + (f + g) == ([s[4..4 + len]] + f) + g;
    }
  }

  /** All length prefixes met while splitting respect the cap. */
  predicate Sane(s: Bytes)
    decreases |s|
  {
    |s| < 4 ||
    (FromLe(s[..4]) <= MAX_RX_FRAME && (|s| < 4 + FromLe(s[..4]) || Sane(s[4 + FromLe(s[..4])..])))
  }

  lemma {:induction false} ExtractSane(s: Bytes)
    requires Sane(s)
    ensures Extract(s) == Split(s)
    decreases |s|
  {
    if |s| >= 4 && |s| >= 4 + FromLe(s[..4]) { ExtractSane(s[4 + FromLe(s[..4])..]); }
  }

  lemma {:induction false} StreamPrefixSane(fs: seq<Bytes>, p: Bytes)
    requires Short(fs, MAX_RX_FRAME) && p <= Stream(fs)
    ensures Sane(p)
    decreases |fs|
  {
    if |fs| > 0 && |p| >= 4 {
      var s := Stream(fs);
      FrameHeader(fs[0], Stream(fs[1..]));
      assert p[..4] == s[..4];
      var n := 4 + |fs[0]|;
      if |p| >= n {
        assert p[n..] <= s[n..] == Stream(fs[1..]);
        StreamPrefixSane(fs[1..], p[n..]);
      }
    }
  }

  lemma {:induction false} SaneRest(s: Bytes, c: Bytes)
    requires Sane(s + c)
    ensures Sane(Split(s).1 + c)
    decreases |s|
  {
    if |s| >= 4 && |s| >= 4 + FromLe(s[..4]) {
      var n := 4 + FromLe(s[..4]);
      assert (s + c)[..4] == s[..4] && (s + c)[n..] == s[n..] + c;
      SaneRest(s[n..], c);
    }
  }

  // ----- delivery -----

  /** One chunk that fits advances the loop exactly as the reference splitter. */
  lemma FittingChunk(sent: Bytes, c: Bytes, fs: seq<Bytes>)
    requires Short(fs, MAX_RX_FRAME) && sent + c <= Stream(fs)
    requires |Split(sent).1| + |c| <= MAX_RX_FRAME + 4
    ensures var (frames, rest) := Extract(Append(Split(sent).1, c));
            Split(sent + c) == (Split(sent).0 + frames, rest)
  {
    StreamPrefixSane(fs, sent + c);
    SaneRest(sent, c);
    ExtractSane(Split(sent).1 + c);
    SplitMore(sent, c);
  }

  lemma {:induction false} ServeSplits(sent: Bytes, chunks: seq<Bytes>, fs: seq<Bytes>)
    requires Short(fs, MAX_RX_FRAME) && sent + Flatten(chunks) == Stream(fs)
    requires NoOverflow(sent, chunks)
    ensures var (frames, rest) := Serve(Split(sent).1, chunks);
            Split(sent).0 + frames == fs && rest == []
    decreases |chunks|
  {
    hide Split, Extract, Append, Stream, Short;
    if |chunks| == 0 {
      assert sent == Stream(fs);
      ShortIsShorter(fs, MAX_RX_FRAME, 0xffff_ffff);
      SplitStream(fs);
    } else {
      var next := sent + chunks[0];
      assert next + Flatten(chunks[1..]) == sent + Flatten(chunks);
      assert next <= Stream(fs);
      FittingChunk(sent, chunks[0], fs);
      ServeSplits(next, chunks[1..], fs);
      var (frames, rest) := Extract(Append(Split(sent).1, chunks[0]));
      var more := Serve(rest, chunks[1..]).0;
      assert Split(sent).0 + (frames + more) == (Split(sent).0 + frames) + more;
    }
  }

  lemma ShortIsShorter(fs: seq<Bytes>, cap: nat, more: nat)
    requires Short(fs, cap) && cap <= more
    ensures Short(fs, more)
  {
  }

  /** Bytes carried by frames, prefixes included. */
  function Weight(fs: seq<Bytes>): nat {
    if |fs| == 0 then 0 else 4 + |fs[0]| + Weight(fs[1..])
  }

  lemma {:induction false} WeightAppend(a: seq<Bytes>, b: seq<Bytes>)
    ensures Weight(a + b) == Weight(a) + Weight(b)
    decreases |a|
  {
    if |a| == 0 {
      assert a + b == b;
    } else {
      assert (a + b)[1..] == a[1..] + b;
      WeightAppend(a[1..], b);
    }
  }

  lemma {:induction false} WeightOfStream(fs: seq<Bytes>)
    ensures |Stream(fs)| == Weight(fs)
    decreases |fs|
  {
    if |fs| > 0 { WeightOfStream(fs[1..]); }
  }

  lemma {:induction false} WeightOfSplit(s: Bytes)
    ensures Weight(Split(s).0) + |Split(s).1| == |s|
    decreases |s|
  {
    if |s| >= 4 && |s| >= 4 + FromLe(s[..4]) {
      var n := 4 + FromLe(s[..4]);
      WeightOfSplit(s[n..]);
      assert Split(s).0[1..] == Split(s[n..]).0;
    }
  }

  /** Extraction invents no bytes, and hands over only frames within the cap. */
  lemma {:induction false} ExtractBounds(rx: Bytes)
    ensures Weight(Extract(rx).0) + |Extract(rx).1| <= |rx|
    ensures Short(Extract(rx).0, MAX_RX_FRAME)
    decreases |rx|
  {
    if |rx| >= 4 && FromLe(rx[..4]) <= MAX_RX_FRAME && |rx| >= 4 + FromLe(rx[..4]) {
      var n := 4 + FromLe(rx[..4]);
      ExtractBounds(rx[n..]);
      assert Extract(rx).0[1..] == Extract(rx[n..]).0;
    }
  }

  lemma {:induction false} ServeBounds(rx: Bytes, chunks: seq<Bytes>)
    ensures Weight(Serve(rx, chunks).0) + |Serve(rx, chunks).1| <= |rx| + |Flatten(chunks)|
    ensures Short(Serve(rx, chunks).0, MAX_RX_FRAME)
    decreases |chunks|
  {
    if |chunks| > 0 {
      var (frames, rest) := Extract(Append(rx, chunks[0]));
      ExtractBounds(Append(rx, chunks[0]));
      ServeBounds(rest, chunks[1..]);
      WeightAppend(frames, Serve(rest, chunks[1..]).0);
    }
  }

  lemma ExtractEmpty()
    ensures Extract([]) == ([], [])
  {
  }

  lemma ServeOne(rx: Bytes, chunks: seq<Bytes>)
    requires |chunks| > 0
    ensures var (frames, rest) := Extract(Append(rx, chunks[0]));
            Weight(Serve(rx, chunks).0) == Weight(frames) + Weight(Serve(rest, chunks[1..]).0)
  {
    hide Extract, Append, Weight;
    var (frames, rest) := Extract(Append(rx, chunks[0]));
    WeightAppend(frames, Serve(rest, chunks[1..]).0);
  }

  /** An overfilled buffer loses what it held and the chunk. */
  lemma OverflowNow(rx: Bytes, chunks: seq<Bytes>)
    requires |chunks| > 0 && |rx| + |chunks[0]| > MAX_RX_FRAME + 4 && |chunks[0]| > 0
    ensures Weight(Serve(rx, chunks).0) + |rx| < |rx| + |Flatten(chunks)|
  {
    hide Serve, Weight, Extract;
    ServeOne(rx, chunks);
    ExtractEmpty();
    ServeBounds([], chunks[1..]);
    assert Append(rx, chunks[0]) == [];
    WeightNone();
  }

  lemma WeightNone()
    ensures Weight([]) == 0
  {
  }

  /** An overfilled buffer loses bytes for good. */
  lemma {:induction false} OverflowLoses(sent: Bytes, chunks: seq<Bytes>, fs: seq<Bytes>)
    requires Short(fs, MAX_RX_FRAME) && sent + Flatten(chunks) == Stream(fs) && Chunked(chunks)
    requires !NoOverflow(sent, chunks)
    ensures Weight(Split(sent).0) + Weight(Serve(Split(sent).1, chunks).0) < |Stream(fs)|
    decreases |chunks|
  {
    hide Split, Extract, Append, Serve, Stream, Weight, Short;
    var rx, c := Split(sent).1, chunks[0];
    WeightOfSplit(sent);
    if |rx| + |c| > MAX_RX_FRAME + 4 {
      OverflowNow(rx, chunks);
    } else {
      var next := sent + c;
      ServeOne(rx, chunks);
      assert next + Flatten(chunks[1..]) == sent + Flatten(chunks);
      assert next <= Stream(fs);
      FittingChunk(sent, c, fs);
      OverflowLoses(next, chunks[1..], fs);
      WeightAppend(Split(sent).0, Extract(Append(rx, c)).0);
    }
  }

  /** Frame reassembly refines whole-stream splitting, exactly when no chunk
      overfills: however the stream of the frames `fs` is cut, the serve loop hands
      over `fs` in order if and only if every frame is within the cap and no chunk
      overfills the buffer. */
  lemma DeliversExactly(fs: seq<Bytes>, chunks: seq<Bytes>)
    requires Chunked(chunks) && Flatten(chunks) == Stream(fs)
    ensures Serve([], chunks).0 == fs <==> Short(fs, MAX_RX_FRAME) && NoOverflow([], chunks)
    ensures Serve([], chunks).0 == fs ==> Serve([], chunks).1 == []
  {
    assert Split([]) == ([], []);
    assert [] + Flatten(chunks) == Stream(fs);
    ServeBounds([], chunks);
    WeightOfStream(fs);
    if Short(fs, MAX_RX_FRAME) {
      if NoOverflow([], chunks) {
        ServeSplits([], chunks, fs);
      } else {
        OverflowLoses([], chunks, fs);
      }
    }
  }

  // ----- after a loss -----

  /** Complete frames at the front are served; an overlong length behind them clears
      the buffer. */
  lemma {:induction false} ExtractOverlong(fs: seq<Bytes>, g: Bytes)
    requires Short(fs, MAX_RX_FRAME) && |g| >= 4 && FromLe(g[..4]) > MAX_RX_FRAME
    ensures Extract(Stream(fs) + g) == (fs, [])
    decreases |fs|
  {
    hide FromLe;
    if |fs| == 0 {
      assert Stream(fs) + g == g;
    } else {
      var rest := Stream(fs[1..]) + g;
      assert Stream(fs) + g == Frame(fs[0]) + rest;
      FrameHeader(fs[0], rest);
      ExtractOverlong(fs[1..], g);
      assert [fs[0]] + fs[1..] == fs;
    }
  }

  /** The cap, in bytes: a frame of up to 8192 is served as soon as it is complete, a
      longer one is not taken, and its length clears the buffer. */
  lemma FrameCap(f: Bytes)
    requires |f| < 0x1_0000_0000
    ensures Extract(Frame(f)) == if |f| <= 8192 then ([f], []) else ([], [])
  {
    hide FromLe;
    var s := Frame(f);
    assert s + [] == s && |s| == 4 + |f| && [f] + [] == [f];
    FrameHeader(f, []);
    ExtractStep(s);
    ExtractEmpty();
  }

  /** A chunk that overfills the buffer is dropped with what was buffered. */
  predicate Overfills(rx: Bytes, chunk: Bytes) { |rx| + |chunk| > MAX_RX_FRAME + 4 }

  /** With the chunk the buffer holds the frames `fs` and then a length over the
      cap. */
  predicate Overlong(rx: Bytes, chunk: Bytes, fs: seq<Bytes>, g: Bytes) {
    && !Overfills(rx, chunk) && rx + chunk == Stream(fs) + g && Short(fs, MAX_RX_FRAME)
    && |g| >= 4 && FromLe(g[..4]) > MAX_RX_FRAME
  }

  /** The loop resynchronizes: after a chunk that overfills the buffer or brings an
      overlong length, whatever is lost, a stream of short frames that starts with
      the next chunk arrives in full. */
  lemma Resynchronizes(rx: Bytes, chunk: Bytes, before: seq<Bytes>, g: Bytes, fs: seq<Bytes>, chunks: seq<Bytes>)
    requires (Overfills(rx, chunk) && before == []) || Overlong(rx, chunk, before, g)
    requires Chunked(chunks) && Flatten(chunks) == Stream(fs) && Short(fs, MAX_RX_FRAME - 63)
    ensures Serve(rx, [chunk] + chunks) == (before + fs, [])
  {
    hide Stream, Short, Extract, FromLe;
    assert ([chunk] + chunks)[0] == chunk && ([chunk] + chunks)[1..] == chunks;
    ShortFramesArrive(fs, chunks);
    if Overfills(rx, chunk) {
      ExtractEmpty();
    } else {
      ExtractOverlong(before, g);
    }
  }

  // ----- which streams are safe -----

  /** The unfinished frame of a prefix of the stream is shorter than a frame. */
  lemma {:induction false} PendingBound(fs: seq<Bytes>, p: Bytes, cap: nat)
    requires Short(fs, cap) && cap < 0x1_0000_0000 && p <= Stream(fs)
    ensures |Split(p).1| < 4 + cap
    decreases |fs|
  {
    if |fs| > 0 && |p| >= 4 {
      var s := Stream(fs);
      FrameHeader(fs[0], Stream(fs[1..]));
      assert p[..4] == s[..4];
      var n := 4 + |fs[0]|;
      if |p| >= n {
        assert p[n..] <= s[n..] == Stream(fs[1..]);
        PendingBound(fs[1..], p[n..], cap);
      }
    }
  }

  lemma {:induction false} ShortFramesFit(sent: Bytes, chunks: seq<Bytes>, fs: seq<Bytes>)
    requires Short(fs, MAX_RX_FRAME - 63) && sent + Flatten(chunks) == Stream(fs) && Chunked(chunks)
    ensures NoOverflow(sent, chunks)
    decreases |chunks|
  {
    if |chunks| > 0 {
      assert sent <= Stream(fs);
      PendingBound(fs, sent, MAX_RX_FRAME - 63);
      assert (sent + chunks[0]) + Flatten(chunks[1..]) == sent + Flatten(chunks);
      ShortFramesFit(sent + chunks[0], chunks[1..], fs);
    }
  }

  /** Frames of at most MAX_RX_FRAME - 63 bytes arrive however the stream is cut. */
  lemma ShortFramesArrive(fs: seq<Bytes>, chunks: seq<Bytes>)
    requires Chunked(chunks) && Flatten(chunks) == Stream(fs) && Short(fs, MAX_RX_FRAME - 63)
    ensures Serve([], chunks) == (fs, [])
  {
    assert [] + Flatten(chunks) == Stream(fs);
    ShortFramesFit([], chunks, fs);
    DeliversExactly(fs, chunks);
  }

  /** Every chunk ends no later than the frame it continues. */
  predicate StaysInFrame(sent: Bytes, chunks: seq<Bytes>)
    decreases |chunks|
  {
    |chunks| == 0 ||
    (var before, after := Split(sent), Split(sent + chunks[0]);
     && (after.0 == before.0 || (|after.0| == |before.0| + 1 && after.1 == []))
     && StaysInFrame(sent + chunks[0], chunks[1..]))
  }

  lemma {:induction false} WholeFramesFit(sent: Bytes, chunks: seq<Bytes>, fs: seq<Bytes>)
    requires Short(fs, MAX_RX_FRAME) && sent + Flatten(chunks) == Stream(fs) && StaysInFrame(sent, chunks)
    ensures NoOverflow(sent, chunks)
    decreases |chunks|
  {
    if |chunks| > 0 {
      var next := sent + chunks[0];
      assert next + Flatten(chunks[1..]) == sent + Flatten(chunks);
      assert next <= Stream(fs);
      PendingBound(fs, next, MAX_RX_FRAME);
      SplitMore(sent, chunks[0]);
      var r := Split(sent).1 + chunks[0];
      WeightOfSplit(r);
      StreamPrefixSane(fs, next);
      SaneRest(sent, chunks[0]);
      ExtractSane(r);
      ExtractBounds(r);
      WholeFramesFit(next, chunks[1..], fs);
    }
  }

  /** Frames up to MAX_RX_FRAME arrive when no chunk spans two frames, as when the
      sender flushes after each frame. */
  lemma FlushedFramesArrive(fs: seq<Bytes>, chunks: seq<Bytes>)
    requires Chunked(chunks) && Flatten(chunks) == Stream(fs) && Short(fs, MAX_RX_FRAME) && StaysInFrame([], chunks)
    ensures Serve([], chunks) == (fs, [])
  {
    assert [] + Flatten(chunks) == Stream(fs);
    WholeFramesFit([], chunks, fs);
    DeliversExactly(fs, chunks);
  }

  // ----- the bound is tight -----

  function Singles(s: Bytes): seq<Bytes> {
    if |s| == 0 then [] else [[s[0]]] + Singles(s[1..])
  }

  lemma ChunkedCons(c: Bytes, cs: seq<Bytes>)
    requires 0 < |c| <= CHUNK && Chunked(cs)
    ensures Chunked([c] + cs)
  {
  }

  lemma FlattenCons(c: Bytes, cs: seq<Bytes>)
    ensures Flatten([c] + cs) == c + Flatten(cs)
  {
    assert ([c] + cs)[1..] == cs;
  }

  lemma SinglesCons(s: Bytes, more: seq<Bytes>)
    requires |s| > 0
    ensures Singles(s) + more == [[s[0]]] + (Singles(s[1..]) + more)
  {
  }

  lemma HeadTail(s: Bytes, t: Bytes)
    requires |s| > 0
    ensures [s[0]] + (s[1..] + t) == s + t
  {
  }

  lemma {:induction false} SinglesFlatten(s: Bytes, more: seq<Bytes>)
    requires Chunked(more)
    ensures Flatten(Singles(s) + more) == s + Flatten(more) && Chunked(Singles(s) + more)
    decreases |s|
  {
    hide Chunked, Flatten;
    if |s| == 0 {
      assert Singles(s) + more == more && s + Flatten(more) == Flatten(more);
    } else {
      hide Singles;
      var rest := Singles(s[1..]) + more;
      SinglesFlatten(s[1..], more);
      SinglesCons(s, more);
      FlattenCons([s[0]], rest);
      HeadTail(s, Flatten(more));
      ChunkedCons([s[0]], rest);
    }
  }

  lemma {:induction false} OverflowAfter(sent: Bytes, s: Bytes, c: Bytes, more: seq<Bytes>)
    requires |Split(sent + s).1| + |c| > MAX_RX_FRAME + 4
    ensures !NoOverflow(sent, Singles(s) + ([c] + more))
    decreases |s|
  {
    var cs := Singles(s) + ([c] + more);
    if |s| == 0 {
      assert cs == [c] + more && sent + s == sent;
    } else {
      assert cs[0] == [s[0]] && cs[1..] == Singles(s[1..]) + ([c] + more);
      assert (sent + [s[0]]) + s[1..] == sent + s;
      OverflowAfter(sent + [s[0]], s[1..], c, more);
    }
  }

  lemma TwoFrames(f: Bytes, g: Bytes)
    ensures Stream([f, g]) == Frame(f) + Frame(g)
  {
    assert [f, g][1..] == [g] && [g][1..] == [];
    assert Stream([g]) == Frame(g) + [] == Frame(g);
  }

  lemma FlattenTwo(c: Bytes, d: Bytes)
    ensures Flatten([c, d]) == c + d
  {
    assert [c, d][1..] == [d] && [d][1..] == [];
    assert Flatten([d]) == d + [] == d;
  }

  /** A frame without its last byte waits in the buffer. */
  lemma UnfinishedFrame(f: Bytes, rest: Bytes)
    requires 0 < |f| < 0x1_0000_0000
    ensures var p := (Frame(f) + rest)[..|f| + 3]; Split(p) == ([], p)
  {
    var s := Frame(f) + rest;
    FrameHeader(f, rest);
    assert s[..|f| + 3][..4] == s[..4];
  }

  /** For every larger size up to the cap there are two frames, none larger, and a
      way to cut their stream on which the serve loop loses a frame. */
  lemma LongerFramesCanBeLost(size: nat)
    requires MAX_RX_FRAME - 63 < size <= MAX_RX_FRAME
    ensures exists fs, chunks :: Chunked(chunks) && Flatten(chunks) == Stream(fs) && Short(fs, size)
              && Serve([], chunks).0 != fs
  {
    hide Serve, NoOverflow, Extract, Split, Singles, Flatten, Stream;
    var f: Bytes, g: Bytes := seq(size, _ => 0), seq(60, _ => 0);
    var fs, s := [f, g], Frame(f) + Frame(g);
    TwoFrames(f, g);
    var p, c, d := s[..size + 3], s[size + 3..size + 67], s[size + 67..];
    var chunks := Singles(p) + [c, d];
    FlattenTwo(c, d);
    SinglesFlatten(p, [c, d]);
    assert p + (c + d) == s;
    UnfinishedFrame(f, Frame(g));
    assert [] + p == p && [c] + [d] == [c, d];
    OverflowAfter([], p, c, [d]);
    DeliversExactly(fs, chunks);
  }
}
