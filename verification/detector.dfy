/**
 One completion of `ObjectDetector.detect`: the recognition results are shaped, the
 proximity pass runs when a depth map came with the frame, and the speech step
 runs with the shaped list.

 Within one completion the proximity blocks are queued on the main queue before
 the speech step, and that queue is serial, so the proximity gate reads the
 speaking flag as it was before this frame's announcements.
 */
module Detector {
  import opened Optional
  import opened Detections
  import opened Proximity
  import opened AlertPolicy

  /**
   What the recognition request delivered: either nothing usable (no model, a request
   error, a failed handler, or results of another type) or a list of observations.
   */
  datatype Inference = InferenceFailed | Recognised(observations: seq<Observation>)

  /** What a completed frame hands on: the boxes shown on screen, proximity alerts and spoken labels. */
  datatype FrameOutput = FrameOutput(detections: seq<DetectedObject>, alerts: seq<Alert>, spoken: set<string>)

  datatype FrameResult = FrameResult(state: AlertState, output: Option<FrameOutput>)

  /** The handling of one frame's recognition outcome at time `now`. */
  function OnFrame(s: AlertState, inference: Inference, depth: Option<DepthMap>, now: real,
                   capitalize: string -> string): (r: FrameResult)
    ensures inference.InferenceFailed? ==> r == FrameResult(s, None)
    ensures inference.Recognised? ==> r.output.Some?
    ensures r.output.Some? ==>
              var out := r.output.value;
              && |out.detections| <= MaxDetections
              && (depth.None? ==> out.alerts == [])
              && (s.isSpeaking ==> CloseObjectAhead !in out.alerts)
              && r.state.lastSpeakTime.Keys <= s.lastSpeakTime.Keys + Identifiers(out.detections)
              && (out.spoken == {} ==> r.state == s)
              && (out.spoken != {} ==> r.state.isSpeaking)
    ensures inference.Recognised? ==>
              var out := r.output.value;
              && out.detections == Shape(inference.observations, capitalize)
              && (forall name :: name in out.spoken <==>
                    name in Identifiers(out.detections) && Due(s.lastSpeakTime, name, now))
              && (depth.Some? ==>
                    && multiset(out.alerts)[HapticPulse] == NearCount(Samples(out.detections, depth.value))
                    && multiset(out.alerts)[CloseObjectAhead]
                       == if s.isSpeaking then 0 else NearCount(Samples(out.detections, depth.value)))
  {
    match inference
    case InferenceFailed => FrameResult(s, None)
    case Recognised(observations) =>
      var detections := Shape(observations, capitalize);
      var alerts := (
        match depth
        case None => []
        case Some(grid) =>
          SpeakingGivesPulsesOnly(Samples(detections, grid));
          AlertCounts(Samples(detections, grid), s.isSpeaking);
          ProximityAlerts(detections, grid, s.isSpeaking));
      var spoken := SpeakDetections(s, detections, now);
      FrameResult(spoken.state, Some(FrameOutput(detections, alerts, spoken.spoken)))
  }

  /**
   The proximity pass leaves the speech state alone: a frame's effect on the state is
   exactly the speech step on its shaped detections, whatever the depth map says.
   */
  lemma ProximityLeavesStateAlone(s: AlertState, observations: seq<Observation>,
                                  d1: Option<DepthMap>, d2: Option<DepthMap>, now: real,
                                  capitalize: string -> string)
    ensures OnFrame(s, Recognised(observations), d1, now, capitalize).state
            == OnFrame(s, Recognised(observations), d2, now, capitalize).state
    ensures OnFrame(s, Recognised(observations), d1, now, capitalize).state
            == Step(s, Detected(Shape(observations, capitalize), now)).state
  {
  }

  /**
   The warning is gated on the flag before this frame's announcements: with speech
   idle, a near object is both warned about and, if newly seen, announced in the same frame.
   */
  lemma WarningPrecedesAnnouncement(s: AlertState, observations: seq<Observation>, grid: DepthMap,
                                    now: real, capitalize: string -> string)
    requires !s.isSpeaking
    requires var ds := Shape(observations, capitalize);
             ds != [] && NearSample(SampleAt(ds[0].boundingBox, grid)) && ds[0].identifier !in s.lastSpeakTime
    ensures var out := OnFrame(s, Recognised(observations), Some(grid), now, capitalize).output.value;
            CloseObjectAhead in out.alerts && out.spoken != {}
  {
    var ds := Shape(observations, capitalize);
    assert Samples(ds, grid)[0] == SampleAt(ds[0].boundingBox, grid);
    assert ProximityAlerts(ds, grid, false)[..2] == [HapticPulse, CloseObjectAhead];
    assert ds[0].identifier in Identifiers(ds);
  }
}
