/** Frames put together again from the fragments in which a stream arrives, and handed on at
    the pace of a bandwidth limit (web-client/src/main.ts:66-80, 476-563). */
module Reassembly {
  import opened BitStream
  import opened Framing
  import opened Octets
  import opened Positional
  import opened Wire
  import opened Wrappers

  // ---------------------------------------------------------------- a stream cut into frames

  function BodyLength(buffer: seq<Octet>): nat
    requires |buffer| >= 4
  {
    FromByteList(buffer[..4], BigEndian)
  }

  predicate HoldsFrame(buffer: seq<Octet>) {
    |buffer| >= 4 && |buffer| >= 4 + BodyLength(buffer)
  }

  function Concat(parts: seq<seq<Octet>>): seq<Octet> {
    if parts == [] then [] else parts[0] + Concat(parts[1..])
  }

  /** The complete frames at the head of a stream, each with its length field. */
  function Complete(stream: seq<Octet>): seq<seq<Octet>>
    decreases |stream|
  {
    if HoldsFrame(stream) then
      var total := 4 + BodyLength(stream);
      [stream[..total]] + Complete(stream[total..])
    else []
  }

  /** What is left after them. */
  function Leftover(stream: seq<Octet>): seq<Octet>
    decreases |stream|
  {
    if HoldsFrame(stream) then Leftover(stream[4 + BodyLength(stream)..]) else stream
  }

  lemma CutOne(stream: seq<Octet>)
    ensures !HoldsFrame(stream) ==> Complete(stream) == [] && Leftover(stream) == stream
    ensures HoldsFrame(stream) ==>
              var total := 4 + BodyLength(stream);
              && Complete(stream) == [stream[..total]] + Complete(stream[total..])
              && Leftover(stream) == Leftover(stream[total..])
  {
  }

  /** The bytes are a frame: a length, and as many bytes as it says. */
  ghost predicate IsFrame(f: seq<Octet>) {
    |f| >= 4 && |f| == 4 + FourBytesAs(f[0], f[1], f[2], f[3])
  }

  /** They do not hold a whole frame. */
  ghost predicate Unfinished(b: seq<Octet>) {
    |b| < 4 || |b| < 4 + FourBytesAs(b[0], b[1], b[2], b[3])
  }

  lemma LengthIs(buffer: seq<Octet>)
    requires |buffer| >= 4
    ensures BodyLength(buffer) == FourBytesAs(buffer[0], buffer[1], buffer[2], buffer[3])
    ensures HoldsFrame(buffer) ==> IsFrame(buffer[..4 + BodyLength(buffer)])
  {
    hide FromByteList, FourBytesAs;
    assert buffer[0..4] == buffer[..4];
    FourByteNumber(buffer, 0);
  }

  /** Nothing is lost, added or reordered; what is cut off are frames, and no frame is left. */
  lemma {:induction false} NothingLost(stream: seq<Octet>)
    ensures Concat(Complete(stream)) + Leftover(stream) == stream
    ensures forall f :: f in Complete(stream) ==> IsFrame(f)
    ensures Unfinished(Leftover(stream)) && !HoldsFrame(Leftover(stream))
    decreases |stream|
  {
    hide BodyLength, IsFrame, FourBytesAs;
    if |stream| >= 4 {
      LengthIs(stream);
    }
    if HoldsFrame(stream) {
      var total := 4 + BodyLength(stream);
      NothingLost(stream[total..]);
      assert ([stream[..total]] + Complete(stream[total..]))[1..] == Complete(stream[total..]);
      assert stream == stream[..total] + stream[total..];
    }
  }

  /** Cutting what has arrived and going on with the leftover is cutting the whole stream. */
  lemma {:induction false} CutAnywhere(a: seq<Octet>, b: seq<Octet>)
    ensures Complete(a + b) == Complete(a) + Complete(Leftover(a) + b)
    ensures Leftover(a + b) == Leftover(Leftover(a) + b)
    decreases |a|
  {
    if HoldsFrame(a) {
      var total := 4 + BodyLength(a);
      assert (a + b)[..4] == a[..4];
      assert (a + b)[..total] == a[..total];
      assert (a + b)[total..] == a[total..] + b;
      CutAnywhere(a[total..], b);
    }
  }

  /** What one fragment adds to the frames found so far. */
  datatype Progress = Progress(frames: seq<seq<Octet>>, buffer: seq<Octet>)

  function Feed(p: Progress, fragment: seq<Octet>): Progress {
    Progress(p.frames + Complete(p.buffer + fragment), Leftover(p.buffer + fragment))
  }

  function FeedAll(p: Progress, fragments: seq<seq<Octet>>): Progress
    decreases |fragments|
  {
    if fragments == [] then p else FeedAll(Feed(p, fragments[0]), fragments[1..])
  }

  lemma {:induction false} FeedAllIsOneCut(p: Progress, before: seq<Octet>, fragments: seq<seq<Octet>>)
    requires p.frames == Complete(before) && p.buffer == Leftover(before)
    ensures var stream := before + Concat(fragments);
      FeedAll(p, fragments) == Progress(Complete(stream), Leftover(stream))
    decreases |fragments|
  {
    hide Complete, Leftover, HoldsFrame;
    if fragments == [] {
      assert before + [] == before;
    } else {
      CutAnywhere(before, fragments[0]);
      FeedAllIsOneCut(Feed(p, fragments[0]), before + fragments[0], fragments[1..]);
      assert before + fragments[0] + Concat(fragments[1..]) == before + Concat(fragments);
    }
  }

  // ---------------------------------------------------------------- frames written by the server

  function Encodings(frames: seq<Frame>): seq<seq<Octet>> {
    seq(|frames|, i requires 0 <= i < |frames| => FrameBytes(frames[i]))
  }

  ghost predicate WithinLimit(frames: seq<Frame>) {
    forall f :: f in frames ==> 3 + |f.payload| <= MAX_FRAME_SIZE
  }

  lemma FrameHeld(f: Frame, rest: seq<Octet>)
    requires 3 + |f.payload| <= MAX_FRAME_SIZE
    ensures var stream := FrameBytes(f) + rest;
      && HoldsFrame(stream) && 4 + BodyLength(stream) == |FrameBytes(f)|
      && stream[..|FrameBytes(f)|] == FrameBytes(f) && stream[|FrameBytes(f)|..] == rest
  {
    hide Be, Pow, FromByteList;
    var stream := FrameBytes(f) + rest;
    assert stream == [] + FrameBytes(f) + rest;
    StandsAfter([], FrameBytes(f), rest);
    StandsSplit(stream, 0, Be(LengthField(f), 4), [f.version, f.kind, f.flags] + f.payload);
    NumberBack(stream, 0, LengthField(f), 4);
    ByteWeights();
    assert stream[0..4] == stream[..4];
  }

  lemma {:induction false} ServerStream(frames: seq<Frame>)
    requires WithinLimit(frames)
    ensures Complete(Concat(Encodings(frames))) == Encodings(frames) && Leftover(Concat(Encodings(frames))) == []
  {
    hide HoldsFrame, BodyLength, FrameBytes;
    if frames == [] {
      NoFrame();
    } else {
      var rest := Concat(Encodings(frames[1..]));
      ServerStream(frames[1..]);
      assert Encodings(frames)[1..] == Encodings(frames[1..]);
      FrameHeld(frames[0], rest);
      assert Encodings(frames) == [FrameBytes(frames[0])] + Encodings(frames[1..]);
    }
  }

  lemma NoFrame()
    ensures !HoldsFrame([])
  {
  }

  /** However the server's stream is cut into fragments, empty ones included, the client gets
      exactly the server's frames, in order, and holds nothing back. */
  lemma AnyFragmentation(frames: seq<Frame>, fragments: seq<seq<Octet>>)
    requires WithinLimit(frames) && Concat(fragments) == Concat(Encodings(frames))
    ensures FeedAll(Progress([], []), fragments) == Progress(Encodings(frames), [])
  {
    hide Complete, Leftover, HoldsFrame, FeedAll;
    EmptyStream();
    FeedAllIsOneCut(Progress([], []), [], fragments);
    assert [] + Concat(fragments) == Concat(fragments);
    ServerStream(frames);
  }

  lemma EmptyStream()
    ensures Complete([]) == [] && Leftover([]) == []
  {
    NoFrame();
  }

  /** While the stream is still arriving, the frames handed over are the first of the server's,
      and the bytes held back are less than one frame. */
  lemma SoFarAPrefix(frames: seq<Frame>, fragments: seq<seq<Octet>>, missing: seq<Octet>)
    requires WithinLimit(frames) && Concat(fragments) + missing == Concat(Encodings(frames))
    ensures var p := FeedAll(Progress([], []), fragments);
      && p.frames <= Encodings(frames) && !HoldsFrame(p.buffer)
      && Concat(p.frames) + p.buffer + missing == Concat(Encodings(frames))
  {
    hide Complete, Leftover, HoldsFrame, FeedAll;
    var stream := Concat(fragments);
    EmptyStream();
    FeedAllIsOneCut(Progress([], []), [], fragments);
    assert [] + stream == stream;
    ServerStream(frames);
    CutAnywhere(stream, missing);
    NothingLost(stream);
  }

  // ---------------------------------------------------------------- the receive throttle

  function TotalSize(frames: seq<seq<Octet>>): nat {
    if frames == [] then 0 else |frames[0]| + TotalSize(frames[1..])
  }

  lemma {:induction false} TotalSizeAppend(frames: seq<seq<Octet>>, frame: seq<Octet>)
    ensures TotalSize(frames + [frame]) == TotalSize(frames) + |frame|
  {
    if frames != [] {
      assert (frames + [frame])[1..] == frames[1..] + [frame];
      TotalSizeAppend(frames[1..], frame);
    }
  }

  lemma {:induction false} TotalSizeConcat(a: seq<seq<Octet>>, b: seq<seq<Octet>>)
    ensures TotalSize(a + b) == TotalSize(a) + TotalSize(b)
  {
    if a == [] {
      assert a + b == b;
    } else {
      assert (a + b)[1..] == a[1..] + b;
      TotalSizeConcat(a[1..], b);
    }
  }

  lemma {:induction false} FramesNotEmpty(stream: seq<Octet>)
    ensures forall f :: f in Complete(stream) ==> |f| >= 4
    decreases |stream|
  {
    if HoldsFrame(stream) {
      FramesNotEmpty(stream[4 + BodyLength(stream)..]);
    }
  }

  /** How many frames at the head of the queue fit into `budget`, counted in thousandths. */
  function Fitting(queue: seq<seq<Octet>>, used: nat, budget: int): (k: nat)
    ensures k <= |queue|
    decreases |queue|
  {
    if queue == [] || 1000 * (used + |queue[0]|) > budget then 0
    else 1 + Fitting(queue[1..], used + |queue[0]|, budget)
  }

  /** They are the longest run that fits. */
  lemma {:induction false} FittingIsLongest(queue: seq<seq<Octet>>, used: nat, budget: int)
    ensures var k := Fitting(queue, used, budget);
      && (k > 0 ==> 1000 * (used + TotalSize(queue[..k])) <= budget)
      && (k < |queue| ==> 1000 * (used + TotalSize(queue[..k]) + |queue[k]|) > budget)
    decreases |queue|
  {
    var k := Fitting(queue, used, budget);
    if k > 0 {
      FittingIsLongest(queue[1..], used + |queue[0]|, budget);
      assert queue[..k][1..] == queue[1..][..k - 1];
    }
  }

  /** `sent` is the longest run at the head of the queue whose bytes are within the allowance, in
      thousandths of a byte, and `left` is the rest. */
  ghost predicate LongestRun(queue: seq<seq<Octet>>, allowed: int, sent: seq<seq<Octet>>, left: seq<seq<Octet>>) {
    && sent + left == queue
    && (sent != [] ==> 1000 * TotalSize(sent) <= allowed)
    && (left != [] ==> 1000 * (TotalSize(sent) + |left[0]|) > allowed)
  }

  lemma RunIsLongest(queue: seq<seq<Octet>>, allowed: int, sent: seq<seq<Octet>>, left: seq<seq<Octet>>)
    requires sent + left == queue && |sent| == Fitting(queue, 0, allowed)
    ensures LongestRun(queue, allowed, sent, left)
  {
    hide TotalSize, Fitting;
    FittingIsLongest(queue, 0, allowed);
    assert queue[..|sent|] == sent;
  }

  /** The throttled queue at one tick of the timer. */
  datatype Queue = Queue(frames: seq<seq<Octet>>, last: int)

  function Tick(q: Queue, rate: nat, now: int): Queue {
    if q.frames == [] then q
    else Queue(q.frames[Fitting(q.frames, 0, rate * (now - q.last))..], now)
  }

  function Ticks(q: Queue, rate: nat, times: seq<int>): Queue
    decreases |times|
  {
    if times == [] then q else Ticks(Tick(q, rate, times[0]), rate, times[1..])
  }

  /** No interval between ticks is long enough for `size` bytes. */
  ghost predicate TooShort(last: int, rate: nat, times: seq<int>, size: nat)
    decreases |times|
  {
    times == [] || (rate * (times[0] - last) < 1000 * size && TooShort(times[0], rate, times[1..], size))
  }

  /** Bandwidth that was not enough is not saved up: a frame larger than what one interval
      allows blocks the queue for ever, however many ticks pass. */
  lemma {:induction false} LargeFrameBlocks(q: Queue, rate: nat, times: seq<int>)
    requires q.frames != [] && TooShort(q.last, rate, times, |q.frames[0]|)
    ensures Ticks(q, rate, times).frames == q.frames
    decreases |times|
  {
    if times != [] {
      assert q.frames[0..] == q.frames;
      LargeFrameBlocks(Tick(q, rate, times[0]), rate, times[1..]);
    }
  }

  /** A tick releases something exactly when the head fits into the time since the last one. */
  lemma TickReleasesIff(q: Queue, rate: nat, now: int)
    requires q.frames != []
    ensures Tick(q, rate, now).frames != q.frames <==> 1000 * |q.frames[0]| <= rate * (now - q.last)
  {
    var k := Fitting(q.frames, 0, rate * (now - q.last));
    assert k > 0 ==> |q.frames[k..]| < |q.frames|;
    assert q.frames[0..] == q.frames;
  }

  /** `n` ticks, one every `interval`. */
  function Steady(last: int, interval: nat, n: nat): (times: seq<int>)
    ensures |times| == n
    decreases n
  {
    if n == 0 then [] else [last + interval] + Steady(last + interval, interval, n - 1)
  }

  lemma {:induction false} TicksShrink(q: Queue, rate: nat, times: seq<int>)
    ensures |Ticks(q, rate, times).frames| <= |q.frames|
    decreases |times|
  {
    hide Fitting;
    if times != [] {
      TicksShrink(Tick(q, rate, times[0]), rate, times[1..]);
    }
  }

  lemma {:induction false} SteadyTooShort(last: int, rate: nat, interval: nat, n: nat, size: nat)
    requires rate * interval < 1000 * size
    ensures TooShort(last, rate, Steady(last, interval, n), size)
    decreases n
  {
    if n > 0 {
      SteadyTooShort(last + interval, rate, interval, n - 1, size);
      assert Steady(last, interval, n)[0] - last == interval;
      assert Steady(last, interval, n)[1..] == Steady(last + interval, interval, n - 1);
    }
  }

  /** Under a timer that ticks regularly the queue stays blocked, for any number of ticks, exactly
      when its first frame is larger than what one interval allows. */
  lemma SteadyBlocksIff(q: Queue, rate: nat, interval: nat, n: nat)
    requires q.frames != [] && n > 0
    ensures Ticks(q, rate, Steady(q.last, interval, n)).frames == q.frames <==> rate * interval < 1000 * |q.frames[0]|
  {
    hide Tick;
    var times := Steady(q.last, interval, n);
    assert times[0] - q.last == interval;
    TickReleasesIff(q, rate, times[0]);
    if rate * interval < 1000 * |q.frames[0]| {
      SteadyTooShort(q.last, rate, interval, n, |q.frames[0]|);
      LargeFrameBlocks(q, rate, times);
    } else {
      ReleasedIsShorter(q, rate, times[0]);
      TicksShrink(Tick(q, rate, times[0]), rate, times[1..]);
    }
  }

  lemma ReleasedIsShorter(q: Queue, rate: nat, now: int)
    requires Tick(q, rate, now).frames != q.frames
    ensures |Tick(q, rate, now).frames| < |q.frames|
  {
    hide Fitting;
    assert q.frames[0..] == q.frames;
  }

  /** For instance: with the slowest connection speed on offer, 1800 bytes a second, and the
      client's tick of 100 milliseconds, a frame of 200 bytes never arrives. */
  lemma SlowConnectionBlocks(frame: seq<Octet>, now: int, n: nat)
    requires |frame| == 200
    ensures Ticks(Queue([frame], now), 1800, Steady(now, 100, n)).frames == [frame]
  {
    if n > 0 {
      SteadyBlocksIff(Queue([frame], now), 1800, 100, n);
    }
  }

  // ---------------------------------------------------------------- the client's fields

  class Receiver {
    var frameBuffer: seq<Octet>
    var expectedFrameLength: Option<nat>
    var frameReceiveBuffer: seq<seq<Octet>>
    var bytesReceived: nat
    var bytesReceivedThrottled: nat
    var lastReceiveProcessTime: int
    const throttleBytesPerSecond: nat
    /** The frames handed to `handleCompleteFrame`. */
    var handled: seq<seq<Octet>>
    ghost var arrived: seq<Octet>

    /** Every frame found so far: those handled, then those waiting. */
    ghost function Found(): seq<seq<Octet>>
      reads this
    {
      handled + frameReceiveBuffer
    }

    ghost predicate Valid()
      reads this
    {
      && Found() == Complete(arrived) && frameBuffer == Leftover(arrived)
      && |arrived| == bytesReceived
      && (throttleBytesPerSecond == 0 ==> frameReceiveBuffer == [])
      && (throttleBytesPerSecond > 0 ==> bytesReceivedThrottled == TotalSize(handled))
      && ExpectationHolds()
    }

    ghost predicate ExpectationHolds()
      reads this`frameBuffer, this`expectedFrameLength
    {
      expectedFrameLength == if |frameBuffer| >= 4 then Some(BodyLength(frameBuffer)) else None
    }

    constructor (throttle: nat, now: int)
      ensures Valid() && Found() == [] && frameBuffer == [] && arrived == []
      ensures throttleBytesPerSecond == throttle && lastReceiveProcessTime == now
    {
      frameBuffer, expectedFrameLength, frameReceiveBuffer := [], None, [];
      bytesReceived, bytesReceivedThrottled, lastReceiveProcessTime := 0, 0, now;
      throttleBytesPerSecond := throttle;
      handled, arrived := [], [];
      EmptyStream();
    }

    /** `onmessage`: counts the bytes and takes them in. */
    method OnMessage(data: seq<Octet>)
      requires Valid()
      modifies this
      ensures Valid() && arrived == old(arrived) + data
      ensures Progress(Found(), frameBuffer) == Feed(Progress(old(Found()), old(frameBuffer)), data)
      ensures handled == if throttleBytesPerSecond > 0 then old(handled) else Found()
      ensures unchanged(`lastReceiveProcessTime) && unchanged(`bytesReceivedThrottled)
    {
      hide Complete, Leftover, BodyLength, HoldsFrame, TotalSize;
      bytesReceived := bytesReceived + |data|;
      NothingLost(arrived);
      CutAnywhere(arrived, data);
      HandleFragment(data);
      arrived := arrived + data;
    }

    method HandleFragment(fragment: seq<Octet>)
      requires ExpectationHolds() && !HoldsFrame(frameBuffer)
      requires throttleBytesPerSecond == 0 ==> frameReceiveBuffer == []
      modifies this`frameBuffer, this`expectedFrameLength, this`frameReceiveBuffer, this`handled
      ensures Found() == old(Found()) + Complete(old(frameBuffer) + fragment)
      ensures frameBuffer == Leftover(old(frameBuffer) + fragment)
      ensures ExpectationHolds()
      ensures throttleBytesPerSecond == 0 ==> frameReceiveBuffer == []
      ensures throttleBytesPerSecond > 0 ==> handled == old(handled)
    {
      hide Complete, Leftover;
      ghost var stream := frameBuffer + fragment;
      assert |frameBuffer| >= 4 ==> stream[..4] == frameBuffer[..4];
      frameBuffer := frameBuffer + fragment;

      while true
        invariant expectedFrameLength.Some? ==>
                    |frameBuffer| >= 4 && expectedFrameLength.value == BodyLength(frameBuffer)
        invariant old(Found()) + Complete(stream) == Found() + Complete(frameBuffer)
        invariant Leftover(stream) == Leftover(frameBuffer)
        invariant throttleBytesPerSecond == 0 ==> frameReceiveBuffer == []
        invariant throttleBytesPerSecond > 0 ==> handled == old(handled)
        decreases |frameBuffer|
      {
        if expectedFrameLength.None? && |frameBuffer| >= 4 {
          expectedFrameLength := Some(BodyLength(frameBuffer));
        }
        if expectedFrameLength.Some? {
          var totalFrameSize := 4 + expectedFrameLength.value;
          if |frameBuffer| >= totalFrameSize {
            CutOne(frameBuffer);
            ghost var found, rest := Found(), Complete(frameBuffer[totalFrameSize..]);
            var completeFrame := frameBuffer[..totalFrameSize];
            assert found + ([completeFrame] + rest) == found + [completeFrame] + rest;
            frameBuffer := frameBuffer[totalFrameSize..];
            expectedFrameLength := None;
            if throttleBytesPerSecond > 0 {
              frameReceiveBuffer := frameReceiveBuffer + [completeFrame];
            } else {
              handled := handled + [completeFrame];
            }
            assert Found() == found + [completeFrame];
            continue;
          }
        }
        break;
      }
      CutOne(frameBuffer);
    }

    /** The timer: hands over the longest run of waiting frames that the time since the last
        tick allows, oldest first, and counts their bytes. */
    method ProcessReceiveBuffer(now: int)
      requires Valid() && throttleBytesPerSecond > 0
      modifies this
      ensures Valid() && Found() == old(Found()) && unchanged(`frameBuffer) && arrived == old(arrived)
      ensures old(handled) <= handled
      ensures Queue(frameReceiveBuffer, lastReceiveProcessTime) ==
              Tick(Queue(old(frameReceiveBuffer), old(lastReceiveProcessTime)), throttleBytesPerSecond, now)
      ensures old(frameReceiveBuffer) == [] ==> unchanged(this)
      ensures old(frameReceiveBuffer) != [] ==>
        && lastReceiveProcessTime == now
        && LongestRun(old(frameReceiveBuffer), throttleBytesPerSecond * (now - old(lastReceiveProcessTime)),
                      handled[|old(handled)|..], frameReceiveBuffer)
    {
      hide Complete, Leftover, BodyLength, HoldsFrame, TotalSize, Fitting, ExpectationHolds, LongestRun;
      if |frameReceiveBuffer| == 0 {
        return;
      }
      var elapsedMs := now - lastReceiveProcessTime;
      FramesNotEmpty(arrived);
      assert forall f :: f in frameReceiveBuffer ==> f in Found();
      var toProcess := TakeFitting(throttleBytesPerSecond * elapsedMs);
      lastReceiveProcessTime := now;
      TotalSizeConcat(handled, toProcess);
      assert handled + toProcess + frameReceiveBuffer == handled + (toProcess + frameReceiveBuffer);
      HandleCompleteFrames(toProcess);
      assert handled[|old(handled)|..] == toProcess;
    }

    /** The loop that takes frames off the queue while the allowance lasts. */
    method TakeFitting(budget: int) returns (toProcess: seq<seq<Octet>>)
      requires forall f :: f in frameReceiveBuffer ==> |f| > 0
      modifies this`frameReceiveBuffer, this`bytesReceivedThrottled
      ensures toProcess + frameReceiveBuffer == old(frameReceiveBuffer)
      ensures |toProcess| == Fitting(old(frameReceiveBuffer), 0, budget)
      ensures LongestRun(old(frameReceiveBuffer), budget, toProcess, frameReceiveBuffer)
      ensures bytesReceivedThrottled == old(bytesReceivedThrottled) + TotalSize(toProcess)
    {
      hide *;
      var bytesProcessed := 0;
      toProcess := [];
      NoSize();
      while |frameReceiveBuffer| > 0 && 1000 * bytesProcessed < budget
        invariant toProcess + frameReceiveBuffer == old(frameReceiveBuffer)
        invariant bytesProcessed == TotalSize(toProcess)
        invariant bytesReceivedThrottled == old(bytesReceivedThrottled) + bytesProcessed
        invariant |toProcess| + Fitting(frameReceiveBuffer, bytesProcessed, budget) ==
                  Fitting(old(frameReceiveBuffer), 0, budget)
        decreases |frameReceiveBuffer|
      {
        var buffered := frameReceiveBuffer[0];
        FittingStep(frameReceiveBuffer, bytesProcessed, budget);
        if 1000 * (bytesProcessed + |buffered|) <= budget {
          TotalSizeAppend(toProcess, buffered);
          frameReceiveBuffer := frameReceiveBuffer[1..];
          toProcess := toProcess + [buffered];
          bytesProcessed := bytesProcessed + |buffered|;
          bytesReceivedThrottled := bytesReceivedThrottled + |buffered|;
        } else {
          break;
        }
      }
      FittingStep(frameReceiveBuffer, bytesProcessed, budget);
      assert |frameReceiveBuffer| > 0 ==> frameReceiveBuffer[0] in old(frameReceiveBuffer);
      RunIsLongest(old(frameReceiveBuffer), budget, toProcess, frameReceiveBuffer);
    }

    method HandleCompleteFrames(frames: seq<seq<Octet>>)
      modifies this`handled
      ensures handled == old(handled) + frames
    {
      for i := 0 to |frames|
        invariant handled == old(handled) + frames[..i]
      {
        handled := handled + [frames[i]];
      }
    }
  }

  lemma NoSize()
    ensures TotalSize([]) == 0
  {
  }

  lemma FittingStep(queue: seq<seq<Octet>>, used: nat, budget: int)
    ensures queue == [] ==> Fitting(queue, used, budget) == 0
    ensures queue != [] && 1000 * (used + |queue[0]|) <= budget ==>
              Fitting(queue, used, budget) == 1 + Fitting(queue[1..], used + |queue[0]|, budget)
    ensures queue != [] && 1000 * (used + |queue[0]|) > budget ==> Fitting(queue, used, budget) == 0
  {
  }
}
