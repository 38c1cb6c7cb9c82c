/**
 The frame pairing of `CameraManager`: a single slot holding the newest video buffer,
 and a depth mode fixed when the camera is set up. The video callback overwrites the
 slot and, without depth, processes the frame at once; the depth callback pairs the
 newest stored video buffer with the depth data it carries.

 Both callbacks run on one serial queue, so a sequence of callbacks is a faithful
 reading of their interleaving. Buffers and depth data are opaque tokens `V` and `D`;
 a processed frame is the pair handed to `processFrame`.
 */
module FrameSync {
  import opened Optional

  /** The slot holding the newest video buffer, and whether a depth output was configured. */
  datatype SyncState<V> = SyncState(latestVideo: Option<V>, depthEnabled: bool)

  /** One `processFrame` call: a video buffer and, in depth mode, the depth data paired with it. */
  datatype Frame<V, D> = Frame(video: V, depth: Option<D>)

  /** A callback's effect: the next state and the frame it processes, if any. */
  datatype Transition<V, D> = Transition(state: SyncState<V>, emitted: Option<Frame<V, D>>)

  /** The state right after setup: no video buffer stored yet. */
  function Start<V>(depthEnabled: bool): SyncState<V> {
    SyncState(None, depthEnabled)
  }

  /** The video callback's effect: the next state and the buffer it processes alone, if any. */
  datatype VideoTransition<V> = VideoTransition(state: SyncState<V>, processed: Option<V>)

  /**
   The video callback; `buffer` is `None` when the sample carries no image buffer,
   in which case the callback returns at once. A processed buffer goes to
   `processFrame` without depth data.
   */
  function OnVideo<V>(s: SyncState<V>, buffer: Option<V>): (r: VideoTransition<V>)
    ensures r.state.depthEnabled == s.depthEnabled
    ensures buffer.None? ==> r.state == s && r.processed.None?
    ensures buffer.Some? ==> r.state.latestVideo == buffer
    ensures r.processed.Some? <==> buffer.Some? && !s.depthEnabled
    ensures r.processed.Some? ==> r.processed == buffer
  {
    match buffer
    case None => VideoTransition(s, None)
    case Some(v) => VideoTransition(s.(latestVideo := Some(v)), if s.depthEnabled then None else Some(v))
  }

  /** The depth callback: pair the stored video buffer with this depth data, if a buffer is stored. */
  function OnDepth<V, D>(s: SyncState<V>, depth: D): (r: Transition<V, D>)
    ensures r.state == s
    ensures r.emitted.Some? <==> s.latestVideo.Some?
    ensures r.emitted.Some? ==> r.emitted.value == Frame(s.latestVideo.value, Some(depth))
  {
    match s.latestVideo
    case None => Transition(s, None)
    case Some(v) => Transition(s, Some(Frame(v, Some(depth))))
  }

  /** The two delegate callbacks. */
  datatype Callback<V, D> = VideoOutput(buffer: Option<V>) | DepthOutput(depth: D)

  /** One callback's effect, with a video-only frame carrying no depth data. */
  function Step<V, D>(s: SyncState<V>, c: Callback<V, D>): (r: Transition<V, D>)
    ensures r.state.depthEnabled == s.depthEnabled
    ensures c.VideoOutput? ==>
              && (c.buffer.None? ==> r.state == s)
              && (c.buffer.Some? ==> r.state.latestVideo == c.buffer)
              && (r.emitted.Some? <==> c.buffer.Some? && !s.depthEnabled)
              && (r.emitted.Some? ==> r.emitted.value == Frame(c.buffer.value, None))
    ensures c.DepthOutput? ==>
              && r.state == s
              && (r.emitted.Some? <==> s.latestVideo.Some?)
              && (r.emitted.Some? ==> r.emitted.value == Frame(s.latestVideo.value, Some(c.depth)))
  {
    match c
    case VideoOutput(b) =>
      var t := OnVideo(s, b);
      Transition(t.state, if t.processed.Some? then Some(Frame(t.processed.value, None)) else None)
    case DepthOutput(d) => OnDepth(s, d)
  }

  function Emit<T>(o: Option<T>): seq<T> {
    if o.Some? then [o.value] else []
  }

  /** The state after a sequence of callbacks and the frames processed, in order. */
  datatype RunResult<V, D> = RunResult(state: SyncState<V>, frames: seq<Frame<V, D>>)

  function Run<V, D>(s: SyncState<V>, cs: seq<Callback<V, D>>): (r: RunResult<V, D>)
    ensures r.state.depthEnabled == s.depthEnabled
    ensures |r.frames| <= |cs|
    decreases |cs|
  {
    if cs == [] then RunResult(s, [])
    else
      var t := Step(s, cs[0]);
      var rest := Run(t.state, cs[1..]);
      RunResult(rest.state, Emit(t.emitted) + rest.frames)
  }

  /** Running a trace one callback longer appends that callback's frame. */
  lemma {:induction false} RunSnoc<V, D>(s: SyncState<V>, cs: seq<Callback<V, D>>, c: Callback<V, D>)
    ensures Run(s, cs + [c]).state == Step(Run(s, cs).state, c).state
    ensures Run(s, cs + [c]).frames == Run(s, cs).frames + Emit(Step(Run(s, cs).state, c).emitted)
    decreases |cs|
  {
    if cs == [] {
      assert cs + [c] == [c];
      assert [c][1..] == [];
    } else {
      assert (cs + [c])[0] == cs[0];
      assert (cs + [c])[1..] == cs[1..] + [c];
      RunSnoc(Step(s, cs[0]).state, cs[1..], c);
    }
  }

  /** The newest video buffer delivered in `cs`, or `init` if none was. */
  function LatestVideo<V, D>(init: Option<V>, cs: seq<Callback<V, D>>): Option<V>
    decreases |cs|
  {
    if cs == [] then init
    else
      var last := cs[|cs| - 1];
      if last.VideoOutput? && last.buffer.Some? then last.buffer else LatestVideo(init, cs[..|cs| - 1])
  }

  /** The frame that callback `c` ought to produce after the callbacks `before`, described by position. */
  function ExpectedAt<V, D>(s: SyncState<V>, before: seq<Callback<V, D>>, c: Callback<V, D>): Option<Frame<V, D>> {
    match c
    case VideoOutput(b) =>
      if b.Some? && !s.depthEnabled then Some(Frame(b.value, None)) else None
    case DepthOutput(d) =>
      var v := LatestVideo(s.latestVideo, before);
      if v.Some? then Some(Frame(v.value, Some(d))) else None
  }

  /** The reference description: each callback contributes its expected frame, in callback order. */
  function Expected<V, D>(s: SyncState<V>, cs: seq<Callback<V, D>>): seq<Frame<V, D>>
    decreases |cs|
  {
    if cs == [] then []
    else Expected(s, cs[..|cs| - 1]) + Emit(ExpectedAt(s, cs[..|cs| - 1], cs[|cs| - 1]))
  }

  /**
   The callback-by-callback state machine agrees with the positional description:
   the slot always holds the newest delivered buffer, the depth mode never changes,
   a video callback produces a frame only without depth, and a depth callback pairs
   the newest buffer delivered before it.
   */
  lemma {:induction false} RunMatchesExpected<V, D>(s: SyncState<V>, cs: seq<Callback<V, D>>)
    ensures Run(s, cs).state == SyncState(LatestVideo(s.latestVideo, cs), s.depthEnabled)
    ensures Run(s, cs).frames == Expected(s, cs)
    decreases |cs|
  {
    if cs != [] {
      var before := cs[..|cs| - 1];
      var c := cs[|cs| - 1];
      assert cs == before + [c];
      RunMatchesExpected(s, before);
      RunSnoc(s, before, c);
    }
  }

  /** The image buffers delivered by the video callbacks of `cs`, in order. */
  function Buffers<V, D>(cs: seq<Callback<V, D>>): seq<V>
    decreases |cs|
  {
    if cs == [] then []
    else (if cs[0].VideoOutput? && cs[0].buffer.Some? then [cs[0].buffer.value] else []) + Buffers(cs[1..])
  }

  predicate NoDepthCallbacks<V, D>(cs: seq<Callback<V, D>>) {
    forall i :: 0 <= i < |cs| ==> cs[i].VideoOutput?
  }

  /**
   Without a depth output, every video buffer is processed exactly once, alone, in
   arrival order.
   */
  lemma {:induction false} WithoutDepthEveryBufferProcessed<V, D>(s: SyncState<V>, cs: seq<Callback<V, D>>)
    requires !s.depthEnabled && NoDepthCallbacks(cs)
    ensures |Run(s, cs).frames| == |Buffers(cs)|
    ensures forall i :: 0 <= i < |Buffers(cs)| ==> Run(s, cs).frames[i] == Frame(Buffers(cs)[i], None)
    decreases |cs|
  {
    if cs != [] {
      assert NoDepthCallbacks(cs[1..]) by {
        forall i | 0 <= i < |cs[1..]| ensures cs[1..][i].VideoOutput? {
          assert cs[1..][i] == cs[i + 1];
        }
      }
      WithoutDepthEveryBufferProcessed(Step(s, cs[0]).state, cs[1..]);
    }
  }

  /** In depth mode the video callbacks never process a frame by themselves. */
  lemma {:induction false} DepthModeVideoSilent<V, D>(s: SyncState<V>, cs: seq<Callback<V, D>>)
    requires s.depthEnabled && NoDepthCallbacks(cs)
    ensures Run(s, cs).frames == []
    ensures Run(s, cs).state.depthEnabled
    decreases |cs|
  {
    if cs != [] {
      assert NoDepthCallbacks(cs[1..]) by {
        forall i | 0 <= i < |cs[1..]| ensures cs[1..][i].VideoOutput? {
          assert cs[1..][i] == cs[i + 1];
        }
      }
      DepthModeVideoSilent(Step(s, cs[0]).state, cs[1..]);
    }
  }

  /**
   In depth mode a depth callback processes exactly one frame once a buffer has been
   stored, pairing the newest buffer delivered before it, and none before that.
   */
  lemma DepthCallbackPairsNewest<V, D>(s: SyncState<V>, before: seq<Callback<V, D>>, d: D)
    ensures var r := Run(s, before + [DepthOutput(d)]);
            var v := LatestVideo(s.latestVideo, before);
            && (v.None? ==> r.frames == Run(s, before).frames)
            && (v.Some? ==> r.frames == Run(s, before).frames + [Frame(v.value, Some(d))])
  {
    RunSnoc(s, before, DepthOutput(d));
    RunMatchesExpected(s, before);
  }

  /** One buffer can be processed once per depth frame that arrives while it is the newest. */
  lemma SameBufferProcessedTwice<V, D>(v: V, d1: D, d2: D)
    ensures Run(Start<V>(true), [VideoOutput(Some(v)), DepthOutput(d1), DepthOutput(d2)]).frames
            == [Frame(v, Some(d1)), Frame(v, Some(d2))]
  {
    var cs: seq<Callback<V, D>> := [VideoOutput(Some(v)), DepthOutput(d1), DepthOutput(d2)];
    var stored := SyncState(Some(v), true);
    assert cs[1..] == [DepthOutput(d1), DepthOutput(d2)];
    assert cs[1..][1..] == [DepthOutput(d2)];
    assert Run(stored, cs[1..][1..]).frames == [Frame(v, Some(d2))];
    assert Run(stored, cs[1..]).frames == [Frame(v, Some(d1)), Frame(v, Some(d2))];
  }

  /**
   What setup finds once a camera and its input exist: whether the session accepts
   the camera input and the video output, whether the camera reports depth data, and
   whether the session accepts a depth output. A refused input or output is skipped
   silently; without the camera input no output receives data.
   */
  datatype CameraDevice = CameraDevice(
    acceptsInput: bool, acceptsVideoOutput: bool, hasDepthData: bool, acceptsDepthOutput: bool)

  /** Video callbacks arrive exactly when both the camera input and the video output were added. */
  predicate VideoAdded(cam: CameraDevice) {
    cam.acceptsInput && cam.acceptsVideoOutput
  }

  /** Depth callbacks arrive exactly when the camera input and a depth output were added. */
  predicate DepthAdded(cam: CameraDevice) {
    cam.acceptsInput && cam.hasDepthData && cam.acceptsDepthOutput
  }

  /** What setup leaves behind: which callbacks can arrive, and the depth mode the callbacks see. */
  datatype Session = Session(videoDelivered: bool, depthDelivered: bool, depthEnabled: bool)

  /**
   Camera setup as written. `None` stands for every path that returns before the
   outputs are configured (no camera found, or the input could not be created). The
   depth output is assigned whenever the camera reports depth data, even when the
   session then refuses to add it.
   */
  function SetupAsWritten(device: Option<CameraDevice>): (r: Session)
    ensures r.depthEnabled ==> device.Some? && device.value.hasDepthData
    ensures device.None? ==> !r.videoDelivered && !r.depthDelivered && !r.depthEnabled
    ensures device.Some? ==>
              && (r.videoDelivered <==> device.value.acceptsInput && device.value.acceptsVideoOutput)
              && r.depthEnabled == device.value.hasDepthData
              && (r.depthDelivered <==>
                    device.value.acceptsInput && device.value.hasDepthData && device.value.acceptsDepthOutput)
  {
    match device
    case None => Session(false, false, false)
    case Some(cam) => Session(VideoAdded(cam), DepthAdded(cam), cam.hasDepthData)
  }

  /** Camera setup with the depth mode taken from whether the depth output was actually added. */
  function Setup(device: Option<CameraDevice>): (r: Session)
    ensures device.None? ==> !r.videoDelivered && !r.depthDelivered && !r.depthEnabled
    ensures device.Some? ==>
              && (r.videoDelivered <==> device.value.acceptsInput && device.value.acceptsVideoOutput)
              && (r.depthEnabled <==> device.value.hasDepthData && device.value.acceptsDepthOutput)
              && (r.depthDelivered <==>
                    device.value.acceptsInput && device.value.hasDepthData && device.value.acceptsDepthOutput)
    ensures r.depthDelivered ==> r.depthEnabled
    ensures r.depthEnabled && !r.depthDelivered ==> !r.videoDelivered
  {
    match device
    case None => Session(false, false, false)
    case Some(cam) => Session(VideoAdded(cam), DepthAdded(cam), cam.hasDepthData && cam.acceptsDepthOutput)
  }

  /** The callbacks `cs` can occur in a session. */
  predicate Deliverable<V, D>(session: Session, cs: seq<Callback<V, D>>) {
    forall i :: 0 <= i < |cs| ==> if cs[i].VideoOutput? then session.videoDelivered else session.depthDelivered
  }

  /** A session that delivers some callback delivers video or depth data. */
  lemma SomethingDelivered<V, D>(session: Session, cs: seq<Callback<V, D>>)
    requires Deliverable(session, cs)
    ensures cs != [] ==> session.videoDelivered || session.depthDelivered
  {
    if cs != [] {
      var first := cs[0];
    }
  }

  /**
   As written, a camera that reports depth data but whose depth output the session
   refuses processes no frame at all, however many video buffers arrive.
   */
  lemma AsWrittenRefusedDepthOutputStarves<V, D>(cs: seq<Callback<V, D>>)
    requires Deliverable(SetupAsWritten(Some(CameraDevice(true, true, true, false))), cs)
    ensures SetupAsWritten(Some(CameraDevice(true, true, true, false))).videoDelivered
    ensures Run(Start<V>(SetupAsWritten(Some(CameraDevice(true, true, true, false))).depthEnabled), cs).frames == []
  {
    DepthModeVideoSilent(Start<V>(true), cs);
  }

  /**
   With the depth mode taken from the outputs actually added, a session that
   delivers no depth processes every video buffer, whatever the camera reports.
   */
  lemma SetupWithoutDepthProcessesEveryBuffer<V, D>(device: Option<CameraDevice>, cs: seq<Callback<V, D>>)
    requires Deliverable(Setup(device), cs)
    requires !Setup(device).depthDelivered
    ensures |Run(Start<V>(Setup(device).depthEnabled), cs).frames| == |Buffers(cs)|
    ensures forall i :: 0 <= i < |Buffers(cs)| ==>
              Run(Start<V>(Setup(device).depthEnabled), cs).frames[i] == Frame(Buffers(cs)[i], None)
  {
    if Setup(device).depthEnabled {
      // Depth mode without depth data means the camera input was refused: no callback arrives.
      SomethingDelivered(Setup(device), cs);
    } else {
      WithoutDepthEveryBufferProcessed(Start<V>(false), cs);
    }
  }
}
