/**
 * The webcam detection hook (client/src/hooks/useWebcamDetection.ts) and the
 * constants it reads (client/src/lib/constants.ts). Each callback the hook
 * registers is one method: the render-loop tick, the one-second fps timer, the
 * socket's result and status callbacks, start, stop and the confidence setter.
 *
 * Time is an integer number of milliseconds passed to the callbacks that read
 * `performance.now()`. The camera, the canvas encoder and the socket's
 * connection state are inputs; the socket itself is an opaque handle, named
 * by the number of sockets opened before it.
 */
module WebcamDetection {
  import opened Types

  const DefaultConfidence: real := 0.5
  const FpsLimit: nat := 15
  /** `Math.floor(1000 / FPS_LIMIT)`, which is 66. */
  const FrameIntervalMs: nat := 1000 / FpsLimit

  /** How `getUserMedia` followed by `video.play()` ends. */
  datatype MediaOutcome =
    | Denied       // getUserMedia rejected: no stream
    | PlayFailed   // the stream was attached, then play() rejected
    | Playing

  /** A frame pushed over the socket: the encoded image and the confidence read at send time. */
  datatype Frame = Frame(image: string, confidence: real)

  /** Consecutive counted ticks are more than `FrameIntervalMs` apart. */
  ghost predicate Spaced(ts: seq<int>) {
    forall i :: 0 < i < |ts| ==> ts[i] - ts[i - 1] > FrameIntervalMs
  }

  /** Every handle in `ids` was issued before the `n`th. */
  ghost predicate IssuedBelow(ids: seq<nat>, n: nat) {
    forall k :: 0 <= k < |ids| ==> ids[k] < n
  }

  /** Every tick falls in `[lo, hi]`. */
  ghost predicate Within(ts: seq<int>, lo: int, hi: int) {
    forall k :: 0 <= k < |ts| ==> lo <= ts[k] <= hi
  }

  lemma WithinSnoc(ts: seq<int>, lo: int, hi: int, t: int)
    requires Within(ts, lo, hi) && hi <= t
    ensures Within(ts, lo, t)
    ensures lo <= t ==> Within(ts + [t], lo, t)
  {
  }

  /** A tick more than `FrameIntervalMs` after the last one keeps the ticks spaced. */
  lemma SpacedSnoc(ts: seq<int>, t: int)
    requires Spaced(ts)
    requires ts != [] ==> t - ts[|ts| - 1] > FrameIntervalMs
    ensures Spaced(ts + [t])
  {
    var us := ts + [t];
    forall i | 0 < i < |us| ensures us[i] - us[i - 1] > FrameIntervalMs {
      if i < |ts| {
        assert us[i] == ts[i] && us[i - 1] == ts[i - 1];
      }
    }
  }

  /** `k` steps along spaced ticks cover at least `k * 67` ms. */
  lemma {:induction false} SpacedGap(ts: seq<int>, i: nat, j: nat)
    requires Spaced(ts) && i <= j < |ts|
    ensures ts[j] - ts[i] >= (FrameIntervalMs + 1) * (j - i)
    decreases j - i
  {
    if i < j {
      SpacedGap(ts, i, j - 1);
    }
  }

  /**
   * No sixteen counted ticks fit in one 1000 ms window: two counted ticks
   * within 1000 ms of each other are fewer than 15 positions apart.
   */
  lemma FifteenPerSecond(ts: seq<int>, i: nat, j: nat)
    requires Spaced(ts) && i <= j < |ts|
    requires ts[j] - ts[i] <= 1000
    ensures j - i < FpsLimit
  {
    if j - i >= FpsLimit {
      SpacedGap(ts, i, i + FpsLimit);
      SpacedGap(ts, i + FpsLimit, j);
    }
  }

  /** A spaced sequence of ticks that all fall in a window of at most 1000 ms has at most 15 ticks. */
  lemma AtMostFifteenInWindow(ts: seq<int>, from: int, to: int)
    requires Spaced(ts) && to - from <= 1000
    requires Within(ts, from, to)
    ensures |ts| <= FpsLimit
  {
    if |ts| > FpsLimit {
      FifteenPerSecond(ts, 0, FpsLimit);
    }
  }

  /** The handle an optional slot holds, as a sequence of zero or one. */
  function Held(s: Option<nat>): seq<nat> {
    match s
    case None => []
    case Some(id) => [id]
  }

  class WebcamSession {
    var isStreaming: bool
    var connectionStatus: ConnectionStatus
    var lastResult: Option<DetectionResult>
    var fps: nat
    /** `frameCount.current`: ticks counted since the fps timer last fired. */
    var frameCount: nat
    /** `lastFrameTime.current`. */
    var lastFrameTime: int
    /** `confidenceRef.current`. */
    var confidence: real
    /** `wsRef.current`: the live socket, if any. */
    var socket: Option<nat>
    var socketsOpened: nat
    /** `videoRef.current.srcObject`: the attached camera stream, if any. */
    var camera: Option<nat>
    /** Camera streams `getUserMedia` has handed out; each is named by its number. */
    var streamsAcquired: nat
    /** Frames sent, in order. */
    var sent: seq<Frame>
    /** Sockets on which `disconnect()` was called, in order. */
    var disconnected: seq<nat>
    /** The camera streams whose tracks were stopped, in order. */
    var stoppedStreams: seq<nat>
    /** The results passed to `onDetection`, in order. */
    var notified: seq<DetectionResult>

    /** The times of every counted tick, and of those since the fps timer last fired. */
    ghost var countedTicks: seq<int>
    ghost var sinceReset: seq<int>
    /** The latest time any callback has seen, and the time the fps timer last fired. */
    ghost var clock: int
    ghost var lastReset: int

    ghost predicate Valid()
      reads this
    {
      (isStreaming <==> socket.Some?) &&
      (socket.Some? ==> socket.value < socketsOpened) &&
      (camera.Some? ==> camera.value < streamsAcquired && camera.value !in stoppedStreams) &&
      IssuedBelow(stoppedStreams, streamsAcquired) &&
      Spaced(countedTicks) &&
      (countedTicks == [] ==> lastFrameTime == 0) &&
      (countedTicks != [] ==> countedTicks[|countedTicks| - 1] == lastFrameTime) &&
      Spaced(sinceReset) && |sinceReset| == frameCount &&
      (sinceReset != [] ==> sinceReset[|sinceReset| - 1] == lastFrameTime) &&
      Within(sinceReset, lastReset, clock) &&
      lastReset <= clock
    }

    /** Camera streams acquired whose tracks were never stopped and that are no longer attached. */
    function Orphaned(): set<nat>
      reads this
    {
      set id | 0 <= id < streamsAcquired && id !in stoppedStreams && camera != Some(id)
    }

    /** The state `stopStream` leaves. */
    predicate Stopped()
      reads this
    {
      !isStreaming && socket.None? && camera.None? && lastResult.None? && connectionStatus == Disconnected
    }

    /** The hook as first rendered: the page was loaded at time 0. */
    constructor ()
      ensures Valid() && Stopped()
      ensures fps == 0 && frameCount == 0 && lastFrameTime == 0 && confidence == DefaultConfidence && clock == 0
      ensures socketsOpened == 0 && sent == [] && disconnected == [] && notified == []
      ensures streamsAcquired == 0 && stoppedStreams == [] && Orphaned() == {}
      ensures countedTicks == [] && sinceReset == [] && lastReset == 0
    {
      isStreaming, connectionStatus, lastResult := false, Disconnected, None;
      fps, frameCount, lastFrameTime, confidence := 0, 0, 0, DefaultConfidence;
      socket, socketsOpened, camera, streamsAcquired := None, 0, None, 0;
      sent, disconnected, stoppedStreams, notified := [], [], [], [];
      countedTicks, sinceReset, clock, lastReset := [], [], 0, 0;
    }

    /** `setConfidence(c)`: the next frame sent carries `c`. */
    method SetConfidence(c: real)
      requires Valid()
      modifies this`confidence
      ensures Valid() && confidence == c
    {
      confidence := c;
    }

    /**
     * One pass of the render loop at time `now`. `connected` is what the socket's
     * `isConnected()` reports, `width` and `height` the video's size, and `image`
     * what the canvas encodes. A tick is counted when the hook is streaming, the
     * socket is connected and more than `FrameIntervalMs` passed since the last
     * counted tick; a counted tick sends a frame only when the video has a size.
     */
    method Tick(now: int, connected: bool, width: int, height: int, image: string) returns (counted: bool)
      requires Valid() && now >= clock
      modifies this`clock, this`lastFrameTime, this`frameCount, this`countedTicks, this`sinceReset, this`sent
      ensures Valid() && clock == now
      ensures counted <==> old(isStreaming) && connected && now - old(lastFrameTime) > FrameIntervalMs
      ensures counted ==>
        lastFrameTime == now && frameCount == old(frameCount) + 1 && countedTicks == old(countedTicks) + [now]
      ensures !counted ==>
        lastFrameTime == old(lastFrameTime) && frameCount == old(frameCount) && countedTicks == old(countedTicks)
      ensures sent == if counted && width > 0 && height > 0 then old(sent) + [Frame(image, old(confidence))] else old(sent)
    {
      WithinSnoc(sinceReset, lastReset, clock, now);
      clock := now;
      counted := false;
      if !isStreaming {
        return;
      }
      if socket.Some? && connected {
        var elapsed := now - lastFrameTime;
        if elapsed > FrameIntervalMs {
          counted := true;
          SpacedSnoc(countedTicks, now);
          SpacedSnoc(sinceReset, now);
          lastFrameTime := now;
          frameCount := frameCount + 1;
          countedTicks := countedTicks + [now];
          sinceReset := sinceReset + [now];
          if width > 0 && height > 0 {
            sent := sent + [Frame(image, confidence)];
          }
        }
      }
    }

    /**
     * The one-second interval at time `now`: publish the ticks counted since
     * the last one as `fps` and reset the count, streaming or not. When at most
     * 1000 ms passed since the last reset, `fps` is at most 15.
     */
    method OnSecond(now: int)
      requires Valid() && now >= clock
      modifies this`fps, this`frameCount, this`sinceReset, this`clock, this`lastReset
      ensures Valid()
      ensures fps == old(frameCount) && frameCount == 0
      ensures now - old(lastReset) <= 1000 ==> fps <= FpsLimit
      ensures clock == now && lastReset == now && sinceReset == []
    {
      if now - lastReset <= 1000 {
        AtMostFifteenInWindow(sinceReset, lastReset, now);
      }
      fps := frameCount;
      frameCount := 0;
      sinceReset, clock, lastReset := [], now, now;
    }

    /** The socket's `onResult` callback: keep only the latest result and notify once. */
    method OnResult(r: DetectionResult)
      requires Valid()
      modifies this`lastResult, this`notified
      ensures Valid()
      ensures lastResult == Some(r) && notified == old(notified) + [r]
    {
      lastResult := Some(r);
      notified := notified + [r];
    }

    /** The socket's `onStatusChange` callback. */
    method OnStatusChange(status: ConnectionStatus)
      requires Valid()
      modifies this`connectionStatus
      ensures Valid() && connectionStatus == status
    {
      connectionStatus := status;
    }

    /**
     * `startStream()`, offered only while not streaming. Without a camera
     * nothing changes. Otherwise the new stream is attached in place of any
     * stream attached before, whose tracks are not stopped; if it would not
     * play, no socket is opened, else a new socket is opened and streaming starts.
     */
    method StartStream(outcome: MediaOutcome)
      requires Valid() && !isStreaming
      modifies this`camera, this`streamsAcquired, this`socket, this`socketsOpened, this`isStreaming
      ensures Valid()
      ensures outcome.Denied? ==> unchanged(this)
      ensures !outcome.Denied? ==>
        camera == Some(old(streamsAcquired)) && streamsAcquired == old(streamsAcquired) + 1 &&
        stoppedStreams == old(stoppedStreams)
      // a stream left attached by an earlier play failure is dropped while still running
      ensures !outcome.Denied? && old(camera).Some? ==> old(camera).value in Orphaned()
      ensures outcome.PlayFailed? ==> !isStreaming && socket.None? && socketsOpened == old(socketsOpened)
      ensures outcome.Playing? ==>
        isStreaming && socket == Some(old(socketsOpened)) && socketsOpened == old(socketsOpened) + 1
    {
      if outcome.Denied? {
        return;
      }
      assert streamsAcquired !in stoppedStreams;
      camera := Some(streamsAcquired);
      streamsAcquired := streamsAcquired + 1;
      if outcome.PlayFailed? {
        return;
      }
      socket := Some(socketsOpened);
      socketsOpened := socketsOpened + 1;
      isStreaming := true;
    }

    /**
     * `stopStream()`: stop the camera's tracks if a stream is attached,
     * disconnect and drop the socket if there is one, and reset the session
     * state. Confidence and the frame counters are kept. Once stopped, a second
     * call changes nothing.
     */
    method StopStream()
      requires Valid()
      modifies this`camera, this`stoppedStreams, this`socket, this`disconnected,
        this`isStreaming, this`lastResult, this`connectionStatus
      ensures Valid() && Stopped()
      ensures stoppedStreams == old(stoppedStreams) + Held(old(camera))
      ensures disconnected == old(disconnected) + Held(old(socket))
      ensures streamsAcquired == old(streamsAcquired) && Orphaned() == old(Orphaned())
      ensures old(Stopped()) ==> unchanged(this)
    {
      assert stoppedStreams + Held(None) == stoppedStreams;
      stoppedStreams := stoppedStreams + Held(camera);
      camera := None;
      assert disconnected + Held(None) == disconnected;
      disconnected := disconnected + Held(socket);
      socket := None;
      isStreaming := false;
      lastResult := None;
      connectionStatus := Disconnected;
    }
  }

  /**
   * Last write wins: whatever confidence was set before, after `setConfidence(c)`
   * the next frame sent carries `c`.
   */
  method NextFrameCarriesLatestConfidence(w: WebcamSession, c: real, now: int, image: string)
    requires w.Valid() && w.isStreaming && now >= w.clock && now - w.lastFrameTime > FrameIntervalMs
    modifies w
    ensures w.Valid() && w.sent == old(w.sent) + [Frame(image, c)]
  {
    w.SetConfidence(c);
    var counted := w.Tick(now, true, 640, 480, image);
  }

  /**
   * The render loop keeps counting after the fps timer fires: a tick 100 ms
   * after the timer at 1000 ms is counted, and the first second reports no frames.
   */
  method TickAfterTimerScenario() returns (fps: nat, counted: bool)
    ensures fps == 0 && counted
  {
    var w := new WebcamSession();
    w.StartStream(Playing);
    w.OnSecond(1000);
    fps := w.fps;
    counted := w.Tick(1100, true, 640, 480, "frame");
  }

  /**
   * A play failure, then a successful start, then stop: the first stream is
   * replaced without being stopped, and stop releases only the second, so the
   * first keeps running.
   */
  method PlayFailureLeaksStream() returns (orphaned: set<nat>, stopped: seq<nat>)
    ensures orphaned == {0} && stopped == [1]
  {
    var w := new WebcamSession();
    w.StartStream(PlayFailed);
    w.StartStream(Playing);
    w.StopStream();
    orphaned, stopped := w.Orphaned(), w.stoppedStreams;
  }

  /**
   * Three empty results, then one with a person: the latest result is the last
   * payload and the detection callback has fired four times.
   */
  method ResultSequenceScenario(empty: DetectionResult, person: DetectionResult)
      returns (latest: Option<DetectionResult>, calls: nat)
    ensures latest == Some(person) && calls == 4
  {
    var w := new WebcamSession();
    w.StartStream(Playing);
    w.OnResult(empty);
    w.OnResult(empty);
    w.OnResult(empty);
    w.OnResult(person);
    latest, calls := w.lastResult, |w.notified|;
  }
}
